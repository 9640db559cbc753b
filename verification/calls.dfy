/** The call record produced for each caller-ID report: when the call came
    in, the caller's number, and the caller's name normalised to upper case.
    The device transmits month, day, hour and minute but no year; the year
    the source fills in from the clock is not part of this model. */
module Calls {
  import opened Results
  import opened Text

  datatype Stamp = Stamp(month: nat, day: nat, hour: nat, minute: nat)

  /** Days a month can have; February admits the 29th. */
  function DaysIn(month: nat): nat
    requires 1 <= month <= 12
  {
    if month == 2 then 29
    else if month == 4 || month == 6 || month == 9 || month == 11 then 30
    else 31
  }

  /** A date and time of day the `%m%d%H%M` format can denote. */
  predicate ValidStamp(s: Stamp) {
    && 1 <= s.month <= 12
    && 1 <= s.day <= DaysIn(s.month)
    && s.hour < 24
    && s.minute < 60
  }

  datatype Call = Call(stamp: Stamp, number: string, name: string)

  /** Two strings that differ at most in the case of their letters. */
  predicate SameIgnoringCase(a: string, b: string) {
    |a| == |b| && forall i :: 0 <= i < |a| ==> UpperChar(a[i]) == UpperChar(b[i])
  }

  /** `Call(dt, number, name)`: the record keeps the stamp and number as
      given and stores the name upper-cased. */
  function MakeCall(stamp: Stamp, number: string, name: string): (c: Call)
    ensures c.stamp == stamp && c.number == number
    ensures IsUpperCase(c.name)
    ensures SameIgnoringCase(c.name, name)
  {
    Call(stamp, number, Upper(name))
  }

  /** Building a call from an already normalised record changes nothing. */
  lemma MakeCallIdempotent(c: Call)
    ensures MakeCall(c.stamp, c.number, c.name).name == c.name <==> IsUpperCase(c.name)
    ensures MakeCall(c.stamp, c.number, MakeCall(c.stamp, c.number, c.name).name)
         == MakeCall(c.stamp, c.number, c.name)
  {
    UpperIdempotent(c.name);
    if IsUpperCase(c.name) {
      assert Upper(c.name) == c.name;
    }
  }

  predicate IsDigit(c: char) {
    '0' <= c <= '9'
  }

  function DigitChar(n: nat): (c: char)
    requires n < 10
    ensures IsDigit(c)
  {
    ('0' as int + n) as char
  }

  /** Zero-padded two-digit decimal text of `n`. */
  function Pad2(n: nat): (s: string)
    requires n < 100
    ensures |s| == 2 && IsDigit(s[0]) && IsDigit(s[1])
  {
    [DigitChar(n / 10), DigitChar(n % 10)]
  }

  /** The decimal value of two digits. */
  function TwoDigits(s: string): (r: Option<nat>)
    requires |s| == 2
    ensures r.Some? ==> r.value < 100 && Pad2(r.value) == s
    ensures r.None? ==> !IsDigit(s[0]) || !IsDigit(s[1])
  {
    if IsDigit(s[0]) && IsDigit(s[1]) then
      Some((s[0] as int - '0' as int) * 10 + (s[1] as int - '0' as int))
    else None
  }

  lemma TwoDigitsOfPad2(n: nat)
    requires n < 100
    ensures TwoDigits(Pad2(n)) == Some(n)
  {
  }

  /** The four-character `DATE` value `MMDD` of a stamp. */
  function DateText(s: Stamp): string
    requires ValidStamp(s)
  {
    Pad2(s.month) + Pad2(s.day)
  }

  /** The four-character `TIME` value `HHMM` of a stamp. */
  function TimeText(s: Stamp): string
    requires ValidStamp(s)
  {
    Pad2(s.hour) + Pad2(s.minute)
  }

  /** `strptime(date + time, '%m%d%H%M')`, restricted to the fixed-width
      form the device sends: the stamp whose `DATE` and `TIME` texts these
      are, or nothing when there is no such valid stamp. */
  function ParseStamp(date: string, time: string): (r: Option<Stamp>)
    ensures r.Some? ==> ValidStamp(r.value)
    ensures r.Some? ==> DateText(r.value) == date && TimeText(r.value) == time
  {
    if |date| != 4 || |time| != 4 then None
    else
      var month := TwoDigits(date[..2]);
      var day := TwoDigits(date[2..]);
      var hour := TwoDigits(time[..2]);
      var minute := TwoDigits(time[2..]);
      if month.None? || day.None? || hour.None? || minute.None? then None
      else
        var s := Stamp(month.value, day.value, hour.value, minute.value);
        if ValidStamp(s) then
          assert date == date[..2] + date[2..];
          assert time == time[..2] + time[2..];
          Some(s)
        else None
  }

  /** Every valid stamp is read back from its own text, so `ParseStamp`
      rejects exactly the texts no valid stamp produces. */
  lemma {:induction false} StampRoundTrip(s: Stamp)
    requires ValidStamp(s)
    ensures ParseStamp(DateText(s), TimeText(s)) == Some(s)
  {
    var d, t := DateText(s), TimeText(s);
    assert d[..2] == Pad2(s.month) && d[2..] == Pad2(s.day);
    assert t[..2] == Pad2(s.hour) && t[2..] == Pad2(s.minute);
    TwoDigitsOfPad2(s.month);
    TwoDigitsOfPad2(s.day);
    TwoDigitsOfPad2(s.hour);
    TwoDigitsOfPad2(s.minute);
  }

  lemma ParseStampRejects(date: string, time: string)
    requires ParseStamp(date, time).None?
    ensures forall s :: ValidStamp(s) ==> DateText(s) != date || TimeText(s) != time
  {
    forall s | ValidStamp(s)
      ensures DateText(s) != date || TimeText(s) != time
    {
      StampRoundTrip(s);
    }
  }
}
