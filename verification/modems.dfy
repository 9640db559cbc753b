/** The AT-command side of the modem (callblock.py `Modem`): writing a
    command, collecting the response lines until one says `OK`, and the
    command sequences `reset`, `close`, `pickup` and `hangup` built on it.

    The operating system is replaced by data the modem value carries: the
    byte counts `os.write` reports, in order, and the results of successive
    `os.read` calls. Every command handed to `os.write` is recorded in the
    modem's log. */
module Modems {
  import opened Results
  import opened Text

  /** `fd` is negative while the device is closed. `accepted` holds the
      counts the next writes report (once it is used up, every write is
      complete); `replies` holds what the next reads return, the empty string
      being end of file (once it is used up, every read is at end of file). */
  datatype Modem = Modem(fd: int, log: seq<string>, accepted: seq<nat>, replies: seq<string>)

  /** A command's outcome: the modem afterwards and the boolean the source
      returns. */
  datatype Reply = Reply(modem: Modem, ok: bool)

  /** The number of response lines `send` reads before giving up. */
  const MaxAttempts: nat := 10

  /** The descriptor of a closed modem. */
  const Closed: int := -1

  /** Text whose last character is a line break. */
  predicate EndsLine(s: string) {
    |s| > 0 && IsBreak(s[|s| - 1])
  }

  /** The command `send` writes: `cmd` with a carriage return appended
      unless it already ends in a carriage return or line feed. */
  function Terminate(cmd: string): (t: string)
    requires |cmd| > 0
    ensures EndsLine(t)
    ensures |cmd| <= |t| <= |cmd| + 1 && t[..|cmd|] == cmd
    ensures t == cmd <==> EndsLine(cmd)
    ensures !EndsLine(cmd) ==> t == cmd + "\r"
  {
    if EndsLine(cmd) then cmd else cmd + "\r"
  }

  /** A terminated command is left as it is. */
  lemma TerminateIdempotent(cmd: string)
    requires |cmd| > 0
    ensures Terminate(Terminate(cmd)) == Terminate(cmd)
  {
  }

  /** The count `os.write` reports for a write of `n` bytes. */
  function Written(accepted: seq<nat>, n: nat): nat {
    if |accepted| > 0 then accepted[0] else n
  }

  function Tail<T>(xs: seq<T>): seq<T> {
    if |xs| > 0 then xs[1..] else []
  }

  /** One response line: the text read and how many reads it used. */
  datatype Line = Line(text: string, used: nat)

  /** The inner `while` loop of `send`: reads are appended to the buffer
      until a read is empty or the buffer ends in a line break. A non-empty
      read ends the buffer exactly when it ends the line itself, since it
      is the buffer's tail. At end of input the reader stays at end of
      file and uses no read. */
  function ReadLine(replies: seq<string>): (l: Line)
    ensures l.used <= |replies|
    ensures l.used == 0 <==> |replies| == 0
    decreases |replies|
  {
    if |replies| == 0 then Line("", 0)
    else if replies[0] == "" || EndsLine(replies[0]) then Line(replies[0], 1)
    else
      var l := ReadLine(replies[1..]);
      Line(replies[0] + l.text, l.used + 1)
  }

  /** A response line is the concatenation of the reads it used: every
      read before the last was non-empty and did not end the line, and the
      last was empty, ended the line, or was the last read there is. */
  lemma {:induction false} ReadLineMeaning(replies: seq<string>)
    ensures var l := ReadLine(replies);
      && l.text == Flatten(replies[..l.used])
      && (l.used > 0 ==> replies[l.used - 1] == "" || EndsLine(replies[l.used - 1]) || l.used == |replies|)
      && forall k :: 0 <= k < l.used - 1 ==> replies[k] != "" && !EndsLine(replies[k])
    decreases |replies|
  {
    if |replies| > 0 {
      var l := ReadLine(replies);
      if replies[0] == "" || EndsLine(replies[0]) {
        assert replies[..1] == [replies[0]];
      } else {
        var tail := replies[1..];
        ReadLineMeaning(tail);
        var n := ReadLine(tail).used;
        assert replies[..n + 1] == [replies[0]] + tail[..n];
        forall k | 1 <= k < n + 1
          ensures replies[k] == tail[k - 1]
        {
        }
      }
    }
  }

  /** The buffers of `n` successive response lines: the reference for what
      `send` inspects. */
  function Attempts(replies: seq<string>, n: nat): (r: seq<string>)
    ensures |r| == n
  {
    if n == 0 then []
    else
      var l := ReadLine(replies);
      [l.text] + Attempts(replies[l.used..], n - 1)
  }

  /** Some line among `lines` contains `OK`. */
  predicate AnyOk(lines: seq<string>) {
    exists i :: 0 <= i < |lines| && Contains(lines[i], "OK")
  }

  lemma AnyOkCons(line: string, lines: seq<string>)
    ensures AnyOk([line] + lines) <==> Contains(line, "OK") || AnyOk(lines)
  {
    var all := [line] + lines;
    if AnyOk(lines) {
      var i :| 0 <= i < |lines| && Contains(lines[i], "OK");
      assert all[i + 1] == lines[i];
    }
    if AnyOk(all) {
      var i :| 0 <= i < |all| && Contains(all[i], "OK");
      if i > 0 {
        assert lines[i - 1] == all[i];
      } else {
        assert all[0] == line;
      }
    }
    if Contains(line, "OK") {
      assert all[0] == line;
    }
  }

  /** What `send` heard: whether a line held `OK`, and how many reads it
      used. */
  datatype Heard = Heard(ok: bool, used: nat)

  /** The outer `for` loop of `send`: up to `n` lines are read, and the
      first that contains `OK` ends the wait with success. */
  function Await(replies: seq<string>, n: nat): (h: Heard)
    ensures h.used <= |replies|
    ensures n == 0 ==> h == Heard(false, 0)
    decreases n
  {
    if n == 0 then Heard(false, 0)
    else
      var l := ReadLine(replies);
      if Contains(l.text, "OK") then Heard(true, l.used)
      else
        var later := Await(replies[l.used..], n - 1);
        Heard(later.ok, l.used + later.used)
  }

  /** The wait succeeds exactly when one of the `n` lines it may read
      contains `OK`. */
  lemma {:induction false} AwaitMeaning(replies: seq<string>, n: nat)
    ensures Await(replies, n).ok <==> AnyOk(Attempts(replies, n))
    decreases n
  {
    if n > 0 {
      var l := ReadLine(replies);
      AwaitMeaning(replies[l.used..], n - 1);
      AnyOkCons(l.text, Attempts(replies[l.used..], n - 1));
    }
  }

  /** The response loop of `send` as the source writes it, a `for` loop
      around a `while` loop, reading from `replies`: it succeeds exactly
      when one of the ten lines contains `OK`, having used the reads
      `Await` uses. */
  method ReadResponse(replies: seq<string>) returns (ok: bool, used: nat)
    ensures ok <==> AnyOk(Attempts(replies, MaxAttempts))
    ensures Heard(ok, used) == Await(replies, MaxAttempts)
  {
    ok, used := ReadLines(replies, MaxAttempts);
    AwaitMeaning(replies, MaxAttempts);
  }

  /** The `for` loop of `send` for `attempts` rounds. */
  method ReadLines(replies: seq<string>, attempts: nat) returns (ok: bool, used: nat)
    ensures Heard(ok, used) == Await(replies, attempts)
  {
    var rest := replies;
    used := 0;
    var i := 0;
    while i < attempts
      invariant 0 <= i <= attempts && used + |rest| == |replies|
      invariant Await(replies, attempts) == Then(used, Await(rest, attempts - i))
    {
      var data, n := ReadBuffer(rest);
      var hit := Contains(data, "OK");
      AwaitStep(rest, attempts - i, data, n, hit);
      used := used + n;
      if hit {
        return true, used;
      }
      rest := rest[n..];
      i := i + 1;
    }
    assert Await(rest, 0) == Heard(false, 0);
    return false, used;
  }

  /** `h` after `used` reads already taken. */
  function Then(used: nat, h: Heard): (r: Heard)
    ensures r.ok == h.ok && r.used == used + h.used
  {
    h.(used := used + h.used)
  }

  /** One round of the outer loop of `send`, `used` reads in: the line read
      either holds `OK` or leaves the remaining rounds to the reads after
      it. */
  lemma AwaitStep(rest: seq<string>, n: nat, data: string, k: nat, hit: bool)
    requires n > 0
    requires ReadLine(rest) == Line(data, k)
    requires hit == Contains(data, "OK")
    ensures Await(rest, n) == if hit then Heard(true, k) else Then(k, Await(rest[k..], n - 1))
  {
  }

  /** The inner `while` loop of `send` as the source writes it. */
  method ReadBuffer(replies: seq<string>) returns (data: string, used: nat)
    ensures ReadLine(replies) == Line(data, used)
  {
    data := "";
    used := 0;
    while used < |replies|
      invariant used <= |replies|
      invariant ReadLine(replies) == Line(data + ReadLine(replies[used..]).text, used + ReadLine(replies[used..]).used)
    {
      var bytes := replies[used];
      ghost var tail := ReadLine(replies[used + 1..]);
      ReadLineStep(replies, used);
      used := used + 1;
      if bytes == "" {
        break;
      }
      EndsLineAppend(data, bytes);
      if !EndsLine(bytes) {
        assert (data + bytes) + tail.text == data + (bytes + tail.text);
      }
      data := data + bytes;
      if EndsLine(data) {
        break;
      }
    }
  }

  /** Reading a line from read `used` on: the read there ends it, or it
      continues with the line read from the next one. */
  lemma ReadLineStep(replies: seq<string>, used: nat)
    requires used < |replies|
    ensures var bytes := replies[used];
      var tail := ReadLine(replies[used + 1..]);
      ReadLine(replies[used..]) ==
        if bytes == "" || EndsLine(bytes) then Line(bytes, 1) else Line(bytes + tail.text, tail.used + 1)
  {
    assert replies[used..][1..] == replies[used + 1..];
  }

  /** A buffer ends a line exactly when its last, non-empty read does. */
  lemma EndsLineAppend(data: string, bytes: string)
    requires bytes != ""
    ensures EndsLine(data + bytes) <==> EndsLine(bytes)
  {
    assert (data + bytes)[|data + bytes| - 1] == bytes[|bytes| - 1];
  }

  /** The write of `send` reports every byte of the terminated command. */
  predicate FullWrite(m: Modem, cmd: string)
    requires |cmd| > 0
  {
    Written(m.accepted, |Terminate(cmd)|) == |Terminate(cmd)|
  }

  /** `send`: nothing happens on a closed modem. Otherwise the terminated
      command is written and logged; a short write fails without reading,
      and a full one succeeds exactly when one of the next ten response
      lines contains `OK`. An empty command on an open modem makes the
      source raise, so it is excluded. The open-modem clauses are the ones
      `Answered` bundles; `SendAnswered` proves the two agree. */
  function Send(m: Modem, cmd: string): (r: Reply)
    requires m.fd < 0 || |cmd| > 0
    ensures m.fd < 0 ==> r == Reply(m, false)
    ensures m.fd >= 0 ==> r.modem.fd == m.fd && r.modem.log == m.log + [Terminate(cmd)]
    ensures m.fd >= 0 ==> r.modem.accepted == Tail(m.accepted)
    ensures m.fd >= 0 && !FullWrite(m, cmd) ==> !r.ok && r.modem.replies == m.replies
    ensures m.fd >= 0 && FullWrite(m, cmd) ==>
      && (r.ok <==> AnyOk(Attempts(m.replies, MaxAttempts)))
      && r.modem.replies == m.replies[Await(m.replies, MaxAttempts).used..]
    ensures exists used :: 0 <= used <= |m.replies| && r.modem.replies == m.replies[used..]
  {
    if m.fd < 0 then
      assert m.replies[0..] == m.replies;
      Reply(m, false)
    else
      var bytes := Terminate(cmd);
      var sent := Written(m.accepted, |bytes|);
      var written := m.(log := m.log + [bytes], accepted := Tail(m.accepted));
      if sent != |bytes| then
        assert m.replies[0..] == m.replies;
        Reply(written, false)
      else
        var heard := Await(m.replies, MaxAttempts);
        AwaitMeaning(m.replies, MaxAttempts);
        Reply(written.(replies := m.replies[heard.used..]), heard.ok)
  }

  /** A device that answers nothing never acknowledges: ten empty lines. */
  lemma SilentModemFails(m: Modem, cmd: string)
    requires m.fd >= 0 && |cmd| > 0 && m.replies == []
    ensures !Send(m, cmd).ok
  {
    var a := Attempts([], MaxAttempts);
    forall i | 0 <= i < MaxAttempts
      ensures a[i] == ""
    {
      AttemptsAtEnd(MaxAttempts, i);
    }
    assert Find("", "OK") == None;
  }

  /** At end of input every response line is empty. */
  lemma {:induction false} AttemptsAtEnd(n: nat, i: nat)
    requires i < n
    ensures Attempts([], n)[i] == ""
    decreases n
  {
    if i > 0 {
      AttemptsAtEnd(n - 1, i - 1);
    }
  }

  /** A complete `OK` line answering a fully written command is success. */
  lemma OkAnswer(m: Modem, cmd: string)
    requires m.fd >= 0 && |cmd| > 0 && FullWrite(m, cmd)
    requires |m.replies| > 0 && m.replies[0] == "OK\r\n"
    ensures Send(m, cmd).ok
    ensures Send(m, cmd).modem.replies == m.replies[1..]
  {
    var line := m.replies[0];
    assert EndsLine(line);
    assert ReadLine(m.replies) == Line(line, 1);
    assert OccursAt(line, "OK", 0);
    assert Attempts(m.replies, MaxAttempts)[0] == line;
  }

  /** The commands as `send` writes them. */
  lemma CommandTexts()
    ensures Terminate("ATZ") == "ATZ\r" && Terminate("AT+VCID=1") == "AT+VCID=1\r"
    ensures Terminate("ATH1") == "ATH1\r" && Terminate("ATH0") == "ATH0\r"
  {
  }

  /** `reset`: on an open modem, `ATZ` and then, only if `ATZ` succeeded,
      `AT+VCID=1`; success needs both. A closed modem is left alone. */
  function Reset(m: Modem): (r: Reply)
    ensures m.fd < 0 ==> r == Reply(m, false)
    ensures r.modem.fd == m.fd
    ensures m.fd >= 0 ==> r.modem.log == m.log + ["ATZ\r"] || r.modem.log == m.log + ["ATZ\r", "AT+VCID=1\r"]
    ensures m.fd >= 0 && !Send(m, "ATZ").ok ==> !r.ok && r.modem.log == m.log + ["ATZ\r"]
    ensures m.fd >= 0 && Send(m, "ATZ").ok ==> r.modem.log == m.log + ["ATZ\r", "AT+VCID=1\r"]
    ensures r.ok ==> r.modem.log == m.log + ["ATZ\r", "AT+VCID=1\r"]
  {
    CommandTexts();
    if m.fd < 0 then Reply(m, false)
    else
      var atz := Send(m, "ATZ");
      if !atz.ok then Reply(atz.modem, false)
      else Send(atz.modem, "AT+VCID=1")
  }

  /** `reset` succeeds exactly when both of its commands do. */
  lemma ResetNeedsBoth(m: Modem)
    requires m.fd >= 0
    ensures Reset(m).ok <==> Send(m, "ATZ").ok && Send(Send(m, "ATZ").modem, "AT+VCID=1").ok
  {
  }

  /** `open`, with the device's configuration left out: `device` is the
      descriptor `os.open` returns, or nothing when it raises, in which
      case `open` fails and the modem is unchanged; otherwise the modem is
      reset on the new descriptor. */
  function Open(m: Modem, device: Option<nat>): (r: Reply)
    ensures device.None? ==> r == Reply(m, false)
    ensures device.Some? ==> r.modem.fd == device.value
    ensures device.Some? ==> r.modem.log == m.log + ["ATZ\r"] || r.modem.log == m.log + ["ATZ\r", "AT+VCID=1\r"]
    ensures r.ok ==> r.modem.log == m.log + ["ATZ\r", "AT+VCID=1\r"]
    ensures device.Some? ==> var live := m.(fd := device.value);
      && (Send(live, "ATZ").ok ==> r.modem.log == m.log + ["ATZ\r", "AT+VCID=1\r"])
      && (!Send(live, "ATZ").ok ==> !r.ok && r.modem.log == m.log + ["ATZ\r"])
      && (r.ok <==> Send(live, "ATZ").ok && Send(Send(live, "ATZ").modem, "AT+VCID=1").ok)
  {
    match device
    case None => Reply(m, false)
    case Some(fd) => Reset(m.(fd := fd))
  }

  /** `close`: on an open modem `ATZ` is sent, whatever its outcome, and
      the descriptor is dropped. A closed modem is left alone. */
  function Close(m: Modem): (r: Modem)
    ensures r.fd < 0
    ensures m.fd < 0 ==> r == m
    ensures m.fd >= 0 ==> r.fd == Closed && r.log == m.log + ["ATZ\r"]
  {
    CommandTexts();
    if m.fd < 0 then m
    else Send(m, "ATZ").modem.(fd := Closed)
  }

  /** Closing twice is closing once. */
  lemma CloseIdempotent(m: Modem)
    ensures Close(Close(m)) == Close(m)
  {
  }

  /** A modem opened on a descriptor and closed again is closed, having
      written the reset commands and then `ATZ`. */
  lemma OpenThenClose(m: Modem, fd: nat)
    ensures Close(Open(m, Some(fd)).modem).fd == Closed
    ensures Close(Open(m, Some(fd)).modem).log == m.log + ["ATZ\r", "ATZ\r"]
         || Close(Open(m, Some(fd)).modem).log == m.log + ["ATZ\r", "AT+VCID=1\r", "ATZ\r"]
  {
    var live := Open(m, Some(fd)).modem;
    ReopenLog(m.log, live.log, Close(live).log);
  }

  lemma ReopenLog(log: seq<string>, live: seq<string>, closed: seq<string>)
    requires live == log + ["ATZ\r"] || live == log + ["ATZ\r", "AT+VCID=1\r"]
    requires closed == live + ["ATZ\r"]
    ensures closed == log + ["ATZ\r", "ATZ\r"] || closed == log + ["ATZ\r", "AT+VCID=1\r", "ATZ\r"]
  {
    if live == log + ["ATZ\r"] {
      assert closed == log + ["ATZ\r", "ATZ\r"];
    } else {
      assert closed == log + ["ATZ\r", "AT+VCID=1\r", "ATZ\r"];
    }
  }

  /** `Send`'s open-modem contract, bundled as one fact about the already
      terminated command `text`, so that `pickup` and `hangup` can be stated
      without the loop's proofs carrying it: `text` is logged and uses one
      write count; a short write fails without reading; a full one succeeds
      exactly when one of the next ten response lines contains `OK`, and
      uses the reads those lines took. */
  predicate Answered(m: Modem, text: string, r: Reply) {
    && r.modem.fd == m.fd
    && r.modem.log == m.log + [text]
    && r.modem.accepted == Tail(m.accepted)
    && (Written(m.accepted, |text|) != |text| ==> !r.ok && r.modem.replies == m.replies)
    && (Written(m.accepted, |text|) == |text| ==>
          && (r.ok <==> AnyOk(Attempts(m.replies, MaxAttempts)))
          && r.modem.replies == m.replies[Await(m.replies, MaxAttempts).used..])
  }

  /** `Answered` is exactly what `Send` promises on an open modem. */
  lemma SendAnswered(m: Modem, cmd: string)
    requires m.fd >= 0 && |cmd| > 0
    ensures Answered(m, Terminate(cmd), Send(m, cmd))
  {
  }

  /** `pickup`: the `ATH1` command. */
  function Pickup(m: Modem): (r: Reply)
    ensures m.fd < 0 ==> r == Reply(m, false)
    ensures m.fd >= 0 ==> r.modem.fd == m.fd && r.modem.log == m.log + ["ATH1\r"]
  {
    CommandTexts();
    Send(m, "ATH1")
  }

  /** `hangup`: the `ATH0` command. */
  function Hangup(m: Modem): (r: Reply)
    ensures m.fd < 0 ==> r == Reply(m, false)
    ensures m.fd >= 0 ==> r.modem.fd == m.fd && r.modem.log == m.log + ["ATH0\r"]
  {
    CommandTexts();
    Send(m, "ATH0")
  }

  /** `pickup` on an open modem is `send` of `ATH1`: it succeeds or fails,
      and uses writes and reads, as `send` does. Stated apart from `Pickup`
      so that the loop's proofs do not carry it. */
  lemma PickupAnswered(m: Modem)
    requires m.fd >= 0
    ensures Answered(m, "ATH1\r", Pickup(m))
  {
    CommandTexts();
  }

  /** `hangup` on an open modem is `send` of `ATH0`. */
  lemma HangupAnswered(m: Modem)
    requires m.fd >= 0
    ensures Answered(m, "ATH0\r", Hangup(m))
  {
    CommandTexts();
  }

  /** The commands blocking a call writes: off hook, on hook, then the
      reset sequence, which stops after `ATZ` when that fails. */
  predicate BlockCommands(cmds: seq<string>) {
    cmds == ["ATH1\r", "ATH0\r", "ATZ\r"] || cmds == ["ATH1\r", "ATH0\r", "ATZ\r", "AT+VCID=1\r"]
  }

  /** The block commands pick the line up exactly once. */
  lemma PicksUpOnce(cmds: seq<string>)
    requires BlockCommands(cmds)
    ensures multiset(cmds)["ATH1\r"] == 1
  {
    assert "ATH0\r" != "ATH1\r" && "ATZ\r" != "ATH1\r" && "AT+VCID=1\r" != "ATH1\r";
  }

  /** What `call_loop` does with a blocked call: pick up, hang up and
      reset, each step taken whatever the previous one returned. */
  function BlockCall(m: Modem): (r: Modem)
    ensures r.fd == m.fd
    ensures m.fd < 0 ==> r == m
    ensures m.fd >= 0 ==> exists cmds :: BlockCommands(cmds) && r.log == m.log + cmds
    ensures m.fd >= 0 ==> var hung := Hangup(Pickup(m).modem).modem;
      (r.log == m.log + ["ATH1\r", "ATH0\r", "ATZ\r", "AT+VCID=1\r"] <==> Send(hung, "ATZ").ok)
  {
    var picked := Pickup(m).modem;
    var hung := Hangup(picked).modem;
    var r := Reset(hung).modem;
    if m.fd >= 0 then
      BlockLog(m.log, picked.log, hung.log, r.log);
      r
    else r
  }

  /** The log after pickup, hangup and reset holds the block commands. */
  lemma BlockLog(log: seq<string>, picked: seq<string>, hung: seq<string>, reset: seq<string>)
    requires picked == log + ["ATH1\r"] && hung == picked + ["ATH0\r"]
    requires reset == hung + ["ATZ\r"] || reset == hung + ["ATZ\r", "AT+VCID=1\r"]
    ensures exists cmds :: BlockCommands(cmds) && reset == log + cmds
  {
    if reset == hung + ["ATZ\r"] {
      assert reset == log + ["ATH1\r", "ATH0\r", "ATZ\r"];
    } else {
      assert reset == log + ["ATH1\r", "ATH0\r", "ATZ\r", "AT+VCID=1\r"];
    }
  }
}
