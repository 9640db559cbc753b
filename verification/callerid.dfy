/** Caller-ID reports (callblock.py `Modem.wait_for_call`). The modem sends
    a burst of `KEY = VALUE` lines with the keys `DATE` (MMDD), `TIME`
    (HHMM), `NMBR` and `NAME`, interleaved with `RING` notices and the echo
    of `AT+VCID=1`. Each read of the line is one chunk of that text. */
module CallerId {
  import opened Results
  import opened Text
  import opened Calls

  /** The separator between a key and its value. */
  const Sep := " = "

  /** Why a chunk is not a caller-ID report. In the source each of these is
      an exception that escapes `wait_for_call`. */
  datatype ParseError =
    | BadLine(line: string)              // not exactly one `" = "`
    | MissingKey(key: string)            // a required key is absent
    | BadStamp(date: string, time: string) // `DATE` + `TIME` is no date and time

  /** One read of the serial line: the text it returned (empty at end of
      file), or an interruption by a signal. */
  datatype Read = Chunk(data: string) | Interrupted

  /** What one `wait_for_call` produces. */
  datatype Waited = NoCall | Incoming(call: Call) | Malformed(error: ParseError)

  /** The outcome of a wait together with the input it left unconsumed. */
  datatype Wait = Wait(outcome: Waited, rest: seq<Read>)

  /** `key, val = line.split(' = ')`: a line is a field exactly when the
      separator occurs in it once; the key is the text before it and the
      value the text after it. */
  function ParseLine(line: string): (r: Result<(string, string), ParseError>)
    ensures r.Success? ==> line == r.value.0 + Sep + r.value.1
    ensures r.Success? ==> Find(line, Sep) == Some(|r.value.0|) && !Contains(r.value.1, Sep)
    ensures r.Failure? ==> r.error == BadLine(line)
  {
    match Find(line, Sep)
    case None => Failure(BadLine(line))
    case Some(i) =>
      var value := line[i + |Sep|..];
      if Contains(value, Sep) then Failure(BadLine(line))
      else
        assert line == line[..i] + Sep + value;
        Success((line[..i], value))
  }

  /** `ParseLine` accepts exactly the lines `str.split` cuts into two
      pieces, and returns those pieces. */
  lemma ParseLineIsSplit(line: string)
    ensures ParseLine(line).Success? <==> |SplitOn(line, Sep)| == 2
    ensures ParseLine(line).Success? ==> SplitOn(line, Sep) == [ParseLine(line).value.0, ParseLine(line).value.1]
  {
    var parts := SplitOn(line, Sep);
    if Contains(line, Sep) {
      var i := Find(line, Sep).value;
      assert parts == [line[..i]] + SplitOn(line[i + |Sep|..], Sep);
    }
  }

  /** A line split into its key and value, or the error for it. */
  type Field = Result<(string, string), ParseError>

  /** No field after index `i` sets the key that field `i` sets. */
  predicate LastSetting(fields: seq<Field>, i: nat)
    requires i < |fields| && forall j :: 0 <= j < |fields| ==> fields[j].Success?
  {
    forall j :: i < j < |fields| ==> fields[j].value.0 != fields[i].value.0
  }

  /** The dictionary the `for` loop of `wait_for_call` builds from its
      lines, each already split: the first line that is not a field is the
      error; otherwise every key maps to the value of the last line that
      sets it, so a later line overwrites an earlier one. */
  function Collect(fields: seq<Field>): (r: Result<map<string, string>, ParseError>)
    ensures r.Success? <==> forall i :: 0 <= i < |fields| ==> fields[i].Success?
    ensures r.Failure? ==> exists i :: 0 <= i < |fields| && FirstFailure(fields, i) && r.error == fields[i].error
    ensures r.Success? ==> forall k :: k in r.value ==> exists i :: 0 <= i < |fields| && fields[i].value.0 == k
    decreases |fields|
  {
    if |fields| == 0 then Success(map[])
    else
      var init := fields[..|fields| - 1];
      var last := fields[|fields| - 1];
      assert forall i :: 0 <= i < |init| ==> init[i] == fields[i];
      match Collect(init)
      case Failure(e) => Failure(e)
      case Success(m) =>
        match last
        case Failure(e) => Failure(e)
        case Success((k, v)) =>
          Success(m[k := v])
  }

  /** Each key maps to the value of the last field that sets it: a later
      duplicate key overwrites an earlier one. */
  lemma {:induction false} CollectLastWins(fields: seq<Field>, i: nat)
    requires Collect(fields).Success? && i < |fields|
    ensures fields[i].value.0 in Collect(fields).value
    ensures LastSetting(fields, i) ==> Collect(fields).value[fields[i].value.0] == fields[i].value.1
    decreases |fields|
  {
    var init := fields[..|fields| - 1];
    assert forall j :: 0 <= j < |init| ==> init[j] == fields[j];
    if i < |fields| - 1 {
      CollectLastWins(init, i);
      if LastSetting(fields, i) {
        assert LastSetting(init, i);
        assert fields[|fields| - 1].value.0 != fields[i].value.0;
      }
    }
  }

  /** Field `i` is the first that is an error. */
  predicate FirstFailure(fields: seq<Field>, i: nat)
    requires i < |fields|
  {
    fields[i].Failure? && forall j :: 0 <= j < i ==> fields[j].Success?
  }

  /** The fields of the stripped lines of a chunk. */
  function ParseFields(lines: seq<string>): Result<map<string, string>, ParseError> {
    Collect(SplitFields(lines))
  }

  /** Every line split into its key and value. */
  function SplitFields(lines: seq<string>): (r: seq<Field>)
    ensures |r| == |lines|
    ensures forall i :: 0 <= i < |lines| ==> r[i] == ParseLine(lines[i])
  {
    seq(|lines|, i requires 0 <= i < |lines| => ParseLine(lines[i]))
  }

  /** Chunks `wait_for_call` discards: they carry `RING` or the echo of
      the caller-ID command. */
  predicate Ignored(data: string) {
    Contains(data, "RING") || Contains(data, "AT+VCID=1")
  }

  /** The report in one chunk: the chunk is stripped and split into lines,
      the lines into fields, `DATE` and `TIME` must form a stamp, and
      `NMBR` and `NAME` give the caller. Errors come in the order the
      source meets them. */
  function ParseChunk(data: string): (w: Waited)
    ensures w.Incoming? ==> ValidStamp(w.call.stamp) && IsUpperCase(w.call.name)
    ensures w.Incoming? <==>
      var fields := ParseFields(SplitLines(Strip(data)));
      && fields.Success?
      && "DATE" in fields.value && "TIME" in fields.value
      && "NMBR" in fields.value && "NAME" in fields.value
      && ParseStamp(fields.value["DATE"], fields.value["TIME"]).Some?
    ensures w.Incoming? ==>
      var fields := ParseFields(SplitLines(Strip(data))).value;
      && w.call.number == fields["NMBR"]
      && SameIgnoringCase(w.call.name, fields["NAME"])
      && DateText(w.call.stamp) == fields["DATE"]
      && TimeText(w.call.stamp) == fields["TIME"]
    ensures !w.NoCall?
  {
    match ParseFields(SplitLines(Strip(data)))
    case Failure(e) => Malformed(e)
    case Success(fields) =>
      if "DATE" !in fields then Malformed(MissingKey("DATE"))
      else if "TIME" !in fields then Malformed(MissingKey("TIME"))
      else
        match ParseStamp(fields["DATE"], fields["TIME"])
        case None => Malformed(BadStamp(fields["DATE"], fields["TIME"]))
        case Some(stamp) =>
          if "NMBR" !in fields then Malformed(MissingKey("NMBR"))
          else if "NAME" !in fields then Malformed(MissingKey("NAME"))
          else Incoming(MakeCall(stamp, fields["NMBR"], fields["NAME"]))
  }

  /** What a read that `wait_for_call` does not skip produces: nothing at
      end of file or on an interruption, the parsed report otherwise. */
  function Outcome(read: Read): Waited {
    match read
    case Interrupted => NoCall
    case Chunk(data) => if data == "" then NoCall else ParseChunk(data)
  }

  /** A read `wait_for_call` skips and follows with another read. */
  predicate Skipped(read: Read) {
    read.Chunk? && read.data != "" && Ignored(read.data)
  }

  /** `wait_for_call` over the input still to come: skipped chunks are
      passed over, and the first other read decides the outcome. When the
      input run out the line is at end of file. Returns the outcome and the
      input left over. */
  function WaitForCall(input: seq<Read>): (r: Wait)
    ensures |r.rest| <= |input| && r.rest == input[|input| - |r.rest|..]
    ensures forall k :: 0 <= k < |input| - |r.rest| - 1 ==> Skipped(input[k])
    ensures |r.rest| == |input| || Skipped(input[|input| - |r.rest| - 1]) ==>
      r.rest == [] && r.outcome == NoCall
    ensures |r.rest| < |input| && !Skipped(input[|input| - |r.rest| - 1]) ==>
      r.outcome == Outcome(input[|input| - |r.rest| - 1])
    decreases |input|
  {
    if |input| == 0 then Wait(NoCall, [])
    else if Skipped(input[0]) then
      var r := WaitForCall(input[1..]);
      assert input[1..][|input| - 1 - |r.rest|..] == input[|input| - |r.rest|..];
      r
    else Wait(Outcome(input[0]), input[1..])
  }

  /** Skipped chunks before a read change nothing about what
      `wait_for_call` returns. */
  lemma {:induction false} SkippedReadsIrrelevant(skipped: seq<Read>, input: seq<Read>)
    requires forall k :: 0 <= k < |skipped| ==> Skipped(skipped[k])
    ensures WaitForCall(skipped + input) == WaitForCall(input)
    decreases |skipped|
  {
    if |skipped| > 0 {
      var all := skipped + input;
      assert all[0] == skipped[0];
      assert all[1..] == skipped[1..] + input;
      assert WaitForCall(all) == WaitForCall(all[1..]);
      SkippedReadsIrrelevant(skipped[1..], input);
    } else {
      assert skipped + input == input;
    }
  }

  /** A chunk that is only line breaks and blanks, such as a bare `\r\n`
      between two bursts, is not a report: it strips to the empty string,
      whose one empty line has no separator. */
  lemma BlankChunkIsMalformed(data: string)
    requires data != "" && !Ignored(data)
    requires AllSpace(data)
    ensures WaitForCall([Chunk(data)]) == Wait(Malformed(BadLine("")), [])
  {
    StripBlank(data);
    assert SplitLines("") == [""];
    assert Find("", Sep) == None;
    assert ParseLine("") == Failure(BadLine(""));
    assert seq(1, i requires 0 <= i < 1 => ParseLine([""][i])) == [Failure(BadLine(""))];
    var bad: seq<Field> := [Failure(BadLine(""))];
    assert bad[..0] == [];
  }

  /** One `KEY = VALUE` line. */
  function FieldLine(key: string, value: string): string {
    key + Sep + value
  }

  /** The four field lines the modem sends for one call. */
  function CallLines(stamp: Stamp, number: string, name: string): seq<string>
    requires ValidStamp(stamp)
  {
    [FieldLine("DATE", DateText(stamp)), FieldLine("TIME", TimeText(stamp)),
     FieldLine("NMBR", number), FieldLine("NAME", name)]
  }

  /** The text of a caller-ID report for one call: its field lines, each
      ended by CR LF. */
  function Report(stamp: Stamp, number: string, name: string): string
    requires ValidStamp(stamp)
  {
    Join(CallLines(stamp, number, name), "\r\n") + "\r\n"
  }

  /** Values that survive the line format: no line breaks, no separator. */
  predicate FieldValue(v: string) {
    NoBreaks(v) && !Contains(v, Sep)
  }

  /** A field key as the modem sends it: four capital letters. */
  predicate Key(k: string) {
    |k| == 4 && forall i :: 0 <= i < 4 ==> 'A' <= k[i] <= 'Z'
  }

  /** The four keys of a report are keys, and no two are the same. */
  lemma ReportKeys()
    ensures Key("DATE") && Key("TIME") && Key("NMBR") && Key("NAME")
    ensures "DATE" != "TIME" && "DATE" != "NMBR" && "DATE" != "NAME"
    ensures "TIME" != "NMBR" && "TIME" != "NAME" && "NMBR" != "NAME"
  {
    assert "DATE"[0] == 'D' && "TIME"[0] == 'T' && "NMBR"[0] == 'N' && "NAME"[0] == 'N';
    assert "NMBR"[1] == 'M' && "NAME"[1] == 'A';
  }

  /** A report is parsed back into the call it describes, provided its
      values fit the line format and the name, which ends the chunk, does
      not end in whitespace that stripping would remove. */
  lemma ReportRoundTrip(stamp: Stamp, number: string, name: string)
    requires ValidStamp(stamp)
    requires FieldValue(number) && FieldValue(name)
    requires |name| > 0 && !IsSpace(name[|name| - 1])
    ensures ParseChunk(Report(stamp, number, name)) == Incoming(MakeCall(stamp, number, name))
  {
    var d, t := DateText(stamp), TimeText(stamp);
    var fields := map["DATE" := d, "TIME" := t, "NMBR" := number, "NAME" := name];
    ReportLines(stamp, number, name);
    ReportFields(stamp, number, name);
    ReportMap(d, t, number, name);
    StampRoundTrip(stamp);
    ChunkOfFields(Report(stamp, number, name), fields, stamp, number, name);
  }

  /** The dictionary of a report's values holds each value under its key. */
  lemma ReportMap(d: string, t: string, number: string, name: string)
    ensures var fields := map["DATE" := d, "TIME" := t, "NMBR" := number, "NAME" := name];
      && "DATE" in fields && "TIME" in fields && "NMBR" in fields && "NAME" in fields
      && fields["DATE"] == d && fields["TIME"] == t && fields["NMBR"] == number && fields["NAME"] == name
  {
    ReportKeys();
  }

  /** A chunk whose fields hold a stamp's text, a number and a name is the
      call with them. */
  lemma ChunkOfFields(data: string, fields: map<string, string>, stamp: Stamp, number: string, name: string)
    requires ParseFields(SplitLines(Strip(data))) == Success(fields)
    requires "DATE" in fields && "TIME" in fields && "NMBR" in fields && "NAME" in fields
    requires ParseStamp(fields["DATE"], fields["TIME"]) == Some(stamp)
    requires fields["NMBR"] == number && fields["NAME"] == name
    ensures ParseChunk(data) == Incoming(MakeCall(stamp, number, name))
  {
  }

  /** The field lines of a report give the dictionary of its values. */
  lemma ReportFields(stamp: Stamp, number: string, name: string)
    requires ValidStamp(stamp) && !Contains(number, Sep) && !Contains(name, Sep)
    ensures ParseFields(CallLines(stamp, number, name))
         == Success(map["DATE" := DateText(stamp), "TIME" := TimeText(stamp), "NMBR" := number, "NAME" := name])
  {
    ReportKeys();
    StampTextsPlain(stamp);
    KeyedFields(CallLines(stamp, number, name), "DATE", "TIME", "NMBR", "NAME",
      DateText(stamp), TimeText(stamp), number, name);
  }

  /** Four field lines with keys and separator-free values give the
      dictionary of those values. */
  lemma KeyedFields(lines: seq<string>, k1: string, k2: string, k3: string, k4: string,
                    v1: string, v2: string, v3: string, v4: string)
    requires Key(k1) && Key(k2) && Key(k3) && Key(k4)
    requires !Contains(v1, Sep) && !Contains(v2, Sep) && !Contains(v3, Sep) && !Contains(v4, Sep)
    requires lines == [FieldLine(k1, v1), FieldLine(k2, v2), FieldLine(k3, v3), FieldLine(k4, v4)]
    ensures ParseFields(lines) == Success(map[k1 := v1, k2 := v2, k3 := v3, k4 := v4])
  {
    KeyLine(k1, v1);
    KeyLine(k2, v2);
    KeyLine(k3, v3);
    KeyLine(k4, v4);
    CollectFour(SplitFields(lines), k1, k2, k3, k4, v1, v2, v3, v4);
  }

  lemma CollectFour(fs: seq<Field>, k1: string, k2: string, k3: string, k4: string,
                    v1: string, v2: string, v3: string, v4: string)
    requires |fs| == 4
    requires fs[0] == Success((k1, v1)) && fs[1] == Success((k2, v2))
    requires fs[2] == Success((k3, v3)) && fs[3] == Success((k4, v4))
    ensures Collect(fs) == Success(map[k1 := v1, k2 := v2, k3 := v3, k4 := v4])
  {
    var s3 := fs[..3];
    var s2 := s3[..2];
    var s1 := s2[..1];
    assert s1[..0] == [];
    assert Collect(s1) == Success(map[k1 := v1]);
    assert Collect(s2) == Success(map[k1 := v1, k2 := v2]);
    assert Collect(s3) == Success(map[k1 := v1, k2 := v2, k3 := v3]);
  }

  /** The digits of a stamp hold no separator and no line break. */
  lemma StampTextsPlain(stamp: Stamp)
    requires ValidStamp(stamp)
    ensures !Contains(DateText(stamp), Sep) && !Contains(TimeText(stamp), Sep)
    ensures NoBreaks(DateText(stamp)) && NoBreaks(TimeText(stamp))
  {
    var d, t := DateText(stamp), TimeText(stamp);
    assert forall i :: 0 <= i < |d| ==> IsDigit(d[i]);
    assert forall i :: 0 <= i < |t| ==> IsDigit(t[i]);
    NoEqualsNoSeparator(d);
    NoEqualsNoSeparator(t);
  }

  /** Stripped and split, a report is its four field lines. */
  lemma ReportLines(stamp: Stamp, number: string, name: string)
    requires ValidStamp(stamp)
    requires FieldValue(number) && FieldValue(name)
    requires |name| > 0 && !IsSpace(name[|name| - 1])
    ensures SplitLines(Strip(Report(stamp, number, name))) == CallLines(stamp, number, name)
  {
    ReportKeys();
    StampTextsPlain(stamp);
    KeyedLines(CallLines(stamp, number, name), "DATE", "TIME", "NMBR", "NAME",
      DateText(stamp), TimeText(stamp), number, name);
  }

  /** Four field lines with break-free values, the last ending in a
      visible character, survive stripping and splitting. */
  lemma KeyedLines(lines: seq<string>, k1: string, k2: string, k3: string, k4: string,
                   v1: string, v2: string, v3: string, v4: string)
    requires Key(k1) && Key(k2) && Key(k3) && Key(k4)
    requires NoBreaks(v1) && NoBreaks(v2) && NoBreaks(v3) && NoBreaks(v4)
    requires |v4| > 0 && !IsSpace(v4[|v4| - 1])
    requires lines == [FieldLine(k1, v1), FieldLine(k2, v2), FieldLine(k3, v3), FieldLine(k4, v4)]
    ensures SplitLines(Strip(Join(lines, "\r\n") + "\r\n")) == lines
  {
    KeyedLine(k1, v1);
    KeyedLine(k2, v2);
    KeyedLine(k3, v3);
    KeyedLine(k4, v4);
    StripSplitJoin(lines);
  }

  /** A field line with a key and a break-free value has no break, starts
      with the key's first letter and ends as its value does. */
  lemma KeyedLine(key: string, value: string)
    requires Key(key) && NoBreaks(value)
    ensures var line := FieldLine(key, value);
      && NoBreaks(line) && |line| > 0 && !IsSpace(line[0])
      && (|value| > 0 ==> line[|line| - 1] == value[|value| - 1])
  {
  }

  /** Lines without breaks, the first starting and the last ending in a
      visible character, joined and ended by CR LF, strip and split back
      into those lines. */
  lemma StripSplitJoin(lines: seq<string>)
    requires |lines| >= 1
    requires forall i :: 0 <= i < |lines| ==> NoBreaks(lines[i]) && |lines[i]| > 0
    requires !IsSpace(lines[0][0]) && !IsSpace(lines[|lines| - 1][|lines[|lines| - 1]| - 1])
    ensures SplitLines(Strip(Join(lines, "\r\n") + "\r\n")) == lines
  {
    JoinEnds(lines, "\r\n");
    StripReport(Join(lines, "\r\n"));
    SplitLinesJoin(lines);
  }

  /** A report without its final line break is what stripping leaves. */
  lemma StripReport(body: string)
    requires |body| > 0 && !IsSpace(body[0]) && !IsSpace(body[|body| - 1])
    ensures Strip(body + "\r\n") == body
  {
    var s := body + "\r\n";
    assert StripLeft(s) == s;
    assert s[..|s| - 1] == body + "\r";
    assert (body + "\r")[..|body|] == body;
    assert StripRight(s) == StripRight(body + "\r") == StripRight(body) == body;
  }

  /** Text without an equals sign holds no separator. */
  lemma NoEqualsNoSeparator(v: string)
    requires forall i :: 0 <= i < |v| ==> v[i] != '='
    ensures !Contains(v, Sep)
  {
    forall j: nat
      ensures !OccursAt(v, Sep, j)
    {
      if j + 3 <= |v| {
        assert v[j..j + 3][1] == v[j + 1];
      }
    }
  }

  /** A field line with a key splits at the separator after the key. */
  lemma KeyLine(key: string, value: string)
    requires Key(key) && !Contains(value, Sep)
    ensures ParseLine(FieldLine(key, value)) == Success((key, value))
  {
    var line := key + Sep + value;
    assert OccursAt(line, Sep, 4);
    forall i: nat | i < 4
      ensures !OccursAt(line, Sep, i)
    {
      assert line[i..i + 3][0] == line[i] == key[i];
    }
    assert Find(line, Sep) == Some(4);
    assert line[..4] == key;
    assert line[7..] == value;
  }

  /** Scenario: the report `DATE = 1225`, `TIME = 1430`, `NMBR = 2025551234`,
      `NAME = JOHN DOE` is a call on 25 December at 14:30. */
  lemma ExampleParsed(stamp: Stamp, number: string, name: string)
    requires stamp == Stamp(12, 25, 14, 30) && number == "2025551234" && name == "JOHN DOE"
    ensures ParseChunk(Report(stamp, number, name)) == Incoming(Call(stamp, number, name))
  {
    ExampleValues(number, name);
    ReportRoundTrip(stamp, number, name);
    MakeCallIdempotent(Call(stamp, number, name));
  }

  /** The example's number and name fit the line format, and the name is
      already upper case. */
  lemma ExampleValues(number: string, name: string)
    requires number == "2025551234" && name == "JOHN DOE"
    ensures FieldValue(number) && FieldValue(name) && IsUpperCase(name)
    ensures |name| > 0 && !IsSpace(name[|name| - 1])
  {
    assert forall i :: 0 <= i < |number| ==> number[i] != '=' && !IsBreak(number[i]);
    assert forall i :: 0 <= i < |name| ==> name[i] != '=' && !IsBreak(name[i]) && !IsLower(name[i]);
    NoEqualsNoSeparator(number);
    NoEqualsNoSeparator(name);
  }

  /** A caller with an empty name breaks the report: stripping the chunk
      removes the blank after the last separator, and the line `NAME =`
      that is left is not a field, so the source raises instead of
      returning the call. */
  lemma EmptyNameIsMalformed(stamp: Stamp, number: string)
    requires ValidStamp(stamp) && FieldValue(number)
    ensures ParseChunk(Report(stamp, number, "")) == Malformed(BadLine("NAME ="))
  {
    var lines := CallLines(stamp, number, "")[..3] + ["NAME ="];
    ReportKeys();
    StampTextsPlain(stamp);
    BareNameLine();
    EmptyNameLines(CallLines(stamp, number, ""), lines, "DATE", "TIME", "NMBR", "NAME",
      DateText(stamp), TimeText(stamp), number);
    ChunkOfBadFields(Report(stamp, number, ""), lines, BadLine("NAME ="));
  }

  /** The line a key with an empty value leaves once the blank after it is
      stripped. */
  function BareLine(key: string): string {
    key + " ="
  }

  /** A key with an empty value is its bare line and a blank. */
  lemma EmptyField(key: string)
    ensures FieldLine(key, "") == BareLine(key) + " "
  {
    assert Sep == " =" + " ";
    assert key + Sep + "" == key + Sep;
  }

  /** `NAME =` is the bare `NAME` line, and it is not a field. */
  lemma BareNameLine()
    ensures BareLine("NAME") == "NAME ="
    ensures ParseLine("NAME =") == Failure(BadLine("NAME ="))
  {
    ReportKeys();
    BareLineIsBad("NAME");
  }

  /** A key with nothing after ` =` holds no separator. */
  lemma BareLineIsBad(key: string)
    requires Key(key)
    ensures ParseLine(BareLine(key)) == Failure(BadLine(BareLine(key)))
  {
    var line := BareLine(key);
    forall j: nat
      ensures !OccursAt(line, Sep, j)
    {
      if j + 3 <= |line| {
        assert line[j..j + 3][1] == line[j + 1];
      }
    }
  }

  /** With an empty last value, stripping leaves the bare key line, and the
      lines split are three fields and that line, the line that is the
      error. */
  lemma EmptyNameLines(full: seq<string>, lines: seq<string>, k1: string, k2: string, k3: string, k4: string,
                       v1: string, v2: string, v3: string)
    requires Key(k1) && Key(k2) && Key(k3) && Key(k4)
    requires NoBreaks(v1) && NoBreaks(v2) && NoBreaks(v3)
    requires !Contains(v1, Sep) && !Contains(v2, Sep) && !Contains(v3, Sep)
    requires full == [FieldLine(k1, v1), FieldLine(k2, v2), FieldLine(k3, v3), FieldLine(k4, "")]
    requires lines == full[..3] + [BareLine(k4)]
    ensures SplitLines(Strip(Join(full, "\r\n") + "\r\n")) == lines
    ensures ParseFields(lines) == Failure(BadLine(BareLine(k4)))
  {
    BareSplit(full, lines, k1, k2, k3, k4, v1, v2, v3);
    KeyLine(k1, v1);
    KeyLine(k2, v2);
    KeyLine(k3, v3);
    BareLineIsBad(k4);
    ThreeThenBad(lines);
  }

  /** Stripped and split, the lines with an empty last value end in the
      bare key line. */
  lemma BareSplit(full: seq<string>, lines: seq<string>, k1: string, k2: string, k3: string, k4: string,
                  v1: string, v2: string, v3: string)
    requires Key(k1) && Key(k2) && Key(k3) && Key(k4)
    requires NoBreaks(v1) && NoBreaks(v2) && NoBreaks(v3)
    requires full == [FieldLine(k1, v1), FieldLine(k2, v2), FieldLine(k3, v3), FieldLine(k4, "")]
    requires lines == full[..3] + [BareLine(k4)]
    ensures SplitLines(Strip(Join(full, "\r\n") + "\r\n")) == lines
  {
    KeyedLine(k1, v1);
    KeyedLine(k2, v2);
    KeyedLine(k3, v3);
    EmptyField(k4);
    assert full == full[..3] + [BareLine(k4) + " "];
    JoinExtendLast(full[..3], "\r\n", BareLine(k4), " ");
    var body := Join(lines, "\r\n");
    assert Join(full, "\r\n") == body + " ";
    assert (body + " ") + "\r\n" == body + " \r\n";
    JoinEnds(lines, "\r\n");
    StripTrailingBlank(body);
    SplitLinesJoin(lines);
  }

  /** A chunk whose lines do not all split into fields is malformed, with
      the error of the first that does not. */
  lemma ChunkOfBadFields(data: string, lines: seq<string>, e: ParseError)
    requires SplitLines(Strip(data)) == lines && ParseFields(lines) == Failure(e)
    ensures ParseChunk(data) == Malformed(e)
  {
  }

  /** Stripping a report that ends in a blank before its line break. */
  lemma StripTrailingBlank(body: string)
    requires |body| > 0 && !IsSpace(body[0]) && !IsSpace(body[|body| - 1])
    ensures Strip(body + " \r\n") == body
  {
    var s := body + " \r\n";
    assert StripLeft(s) == s;
    assert s[..|s| - 1] == body + " \r";
    assert (body + " \r")[..|body| + 1] == body + " ";
    assert (body + " ")[..|body|] == body;
    assert StripRight(s) == StripRight(body + " \r") == StripRight(body + " ") == StripRight(body) == body;
  }

  /** Three fields and then a line that is not one: the fourth line is the
      error. */
  lemma ThreeThenBad(lines: seq<string>)
    requires |lines| == 4
    requires ParseLine(lines[0]).Success? && ParseLine(lines[1]).Success? && ParseLine(lines[2]).Success?
    requires ParseLine(lines[3]).Failure?
    ensures ParseFields(lines) == Failure(ParseLine(lines[3]).error)
  {
    var fs := SplitFields(lines);
    assert fs[..3][..2][..1][..0] == [];
    assert Collect(fs[..3]).Success?;
  }
}
