/** `call_loop` (callblock.py): wait for a call, decide whether it is
    blocked, and if so pick up, hang up and reset the modem; stop once the
    `running` flag is cleared.

    Signals are not modelled as concurrency: each pass of the loop is a
    `Tick` holding what `wait_for_call` returned, the value of the `running`
    flag once it returned, and the blacklist in force at that moment. */
module CallLoop {
  import opened Results
  import opened Calls
  import opened Blacklists
  import opened CallerId
  import opened Modems

  datatype Tick = Tick(wait: Waited, running: bool, blacklist: Blacklist)

  /** Why the loop ended: the flag was cleared, a malformed report raised
      out of `wait_for_call`, or the ticks ran out with the loop still
      going. */
  datatype Exit = Stopped | Crashed(error: ParseError) | Pending

  /** The modem when the loop ended, why it ended, and how many ticks it
      used. */
  datatype LoopEnd = LoopEnd(modem: Modem, exit: Exit, handled: nat)

  /** One received call: a blocked call is picked up, hung up and the modem
      reset; any other call leaves the modem as it is. */
  function Handle(m: Modem, call: Call, bl: Blacklist): (r: Modem)
    ensures r.fd == m.fd
    ensures !Blocked(call, bl) || m.fd < 0 ==> r == m
    ensures Blocked(call, bl) && m.fd >= 0 ==> exists cmds :: BlockCommands(cmds) && r.log == m.log + cmds
  {
    if Blocked(call, bl) then BlockCall(m) else m
  }

  function Next(e: LoopEnd): LoopEnd {
    e.(handled := e.handled + 1)
  }

  /** `call_loop` over the ticks to come, entered with the flag `running`. */
  function Loop(m: Modem, running: bool, ticks: seq<Tick>): (r: LoopEnd)
    ensures r.handled <= |ticks|
    ensures r.modem.fd == m.fd
    ensures m.fd < 0 ==> r.modem == m
    ensures !running ==> r == LoopEnd(m, Stopped, 0)
    decreases |ticks|
  {
    if !running then LoopEnd(m, Stopped, 0)
    else if |ticks| == 0 then LoopEnd(m, Pending, 0)
    else
      var t := ticks[0];
      match t.wait
      case NoCall =>
        if !t.running then LoopEnd(m, Stopped, 1) else Next(Loop(m, true, ticks[1..]))
      case Malformed(err) => LoopEnd(m, Crashed(err), 1)
      case Incoming(call) => Next(Loop(Handle(m, call, t.blacklist), t.running, ticks[1..]))
  }

  /** Every tick before the last one the loop used was running and well
      formed. */
  lemma {:induction false} RunningBeforeEnd(m: Modem, running: bool, ticks: seq<Tick>)
    ensures forall k :: 0 <= k < Loop(m, running, ticks).handled - 1 ==> ticks[k].running && !ticks[k].wait.Malformed?
    decreases |ticks|
  {
    if running && |ticks| > 0 {
      var t := ticks[0];
      match t.wait
      case NoCall =>
        if t.running {
          RunningBeforeEnd(m, true, ticks[1..]);
          ShiftTicks(ticks, Loop(m, true, ticks[1..]).handled);
        }
      case Malformed(_) =>
      case Incoming(call) =>
        RunningBeforeEnd(Handle(m, call, t.blacklist), t.running, ticks[1..]);
        ShiftTicks(ticks, Loop(Handle(m, call, t.blacklist), t.running, ticks[1..]).handled);
    }
  }

  /** A loop still pending was entered running and has used every tick, the
      last of which left the flag set. */
  lemma {:induction false} PendingUsesAll(m: Modem, running: bool, ticks: seq<Tick>)
    ensures Loop(m, running, ticks).exit.Pending? ==>
      running && Loop(m, running, ticks).handled == |ticks| && (|ticks| == 0 || ticks[|ticks| - 1].running)
    decreases |ticks|
  {
    if running && |ticks| > 0 {
      LoopFirst(m, ticks);
      if Continues(ticks[0]) {
        var h := After(m, ticks[0]);
        PendingUsesAll(h, ticks[0].running, ticks[1..]);
        PendingShift(ticks, Loop(h, ticks[0].running, ticks[1..]));
      }
    }
  }

  /** The loop goes on after the tick: it brought a call, or no call with
      the flag still set. */
  predicate Continues(t: Tick) {
    t.wait.Incoming? || (t.wait.NoCall? && t.running)
  }

  /** The modem after the tick's call, if any, was handled. */
  function After(m: Modem, t: Tick): Modem {
    if t.wait.Incoming? then Handle(m, t.wait.call, t.blacklist) else m
  }

  /** One pass of the running loop: it either goes on over the remaining
      ticks from the modem the first left, or ends on the first tick. */
  lemma LoopFirst(m: Modem, ticks: seq<Tick>)
    requires |ticks| > 0
    ensures Continues(ticks[0]) ==> Loop(m, true, ticks) == Next(Loop(After(m, ticks[0]), ticks[0].running, ticks[1..]))
    ensures !Continues(ticks[0]) ==> Loop(m, true, ticks).handled == 1 && !Loop(m, true, ticks).exit.Pending?
  {
  }

  /** A pending loop over the ticks after the first, entered with the first
      tick's flag, is pending over all of them one tick later. */
  lemma PendingShift(ticks: seq<Tick>, rest: LoopEnd)
    requires |ticks| > 0
    requires rest.exit.Pending? ==>
      ticks[0].running && rest.handled == |ticks| - 1 && (|ticks| == 1 || ticks[1..][|ticks| - 2].running)
    ensures Next(rest).exit.Pending? ==> Next(rest).handled == |ticks| && ticks[|ticks| - 1].running
  {
  }

  /** A crash is the malformed report of the last tick the loop used. */
  lemma {:induction false} CrashOnMalformed(m: Modem, running: bool, ticks: seq<Tick>)
    ensures Loop(m, running, ticks).exit.Crashed? ==>
      && Ended(ticks, Loop(m, running, ticks).handled)
      && ticks[Loop(m, running, ticks).handled - 1].wait == Malformed(Loop(m, running, ticks).exit.error)
    decreases |ticks|
  {
    if running && |ticks| > 0 {
      var t := ticks[0];
      match t.wait
      case NoCall =>
        if t.running {
          CrashOnMalformed(m, true, ticks[1..]);
          ShiftTicks(ticks, Loop(m, true, ticks[1..]).handled);
        }
      case Malformed(_) =>
      case Incoming(call) =>
        CrashOnMalformed(Handle(m, call, t.blacklist), t.running, ticks[1..]);
        ShiftTicks(ticks, Loop(Handle(m, call, t.blacklist), t.running, ticks[1..]).handled);
    }
  }

  /** A loop entered running stops on a well-formed tick that cleared the
      flag. */
  lemma {:induction false} StopOnCleared(m: Modem, running: bool, ticks: seq<Tick>)
    ensures Loop(m, running, ticks).exit.Stopped? && running ==>
      && Ended(ticks, Loop(m, running, ticks).handled)
      && !ticks[Loop(m, running, ticks).handled - 1].running
      && !ticks[Loop(m, running, ticks).handled - 1].wait.Malformed?
    decreases |ticks|
  {
    if running && |ticks| > 0 {
      var t := ticks[0];
      match t.wait
      case NoCall =>
        if t.running {
          StopOnCleared(m, true, ticks[1..]);
          ShiftTicks(ticks, Loop(m, true, ticks[1..]).handled);
        }
      case Malformed(_) =>
      case Incoming(call) =>
        StopOnCleared(Handle(m, call, t.blacklist), t.running, ticks[1..]);
        ShiftTicks(ticks, Loop(Handle(m, call, t.blacklist), t.running, ticks[1..]).handled);
    }
  }

  /** The loop ended on a tick among `ticks`. */
  predicate Ended(ticks: seq<Tick>, handled: nat) {
    0 < handled <= |ticks|
  }

  /** The ticks after the first, seen from the whole sequence. */
  lemma ShiftTicks(ticks: seq<Tick>, n: nat)
    requires n < |ticks|
    ensures forall k :: 1 <= k <= n ==> ticks[k] == ticks[1..][k - 1]
  {
  }

  /** The tick brings a call its blacklist blocks. */
  predicate BlocksCall(t: Tick) {
    t.wait.Incoming? && Blocked(t.wait.call, t.blacklist)
  }

  /** How many of `ticks` bring a blocked call. */
  function BlockedCount(ticks: seq<Tick>): nat {
    if |ticks| == 0 then 0
    else (if BlocksCall(ticks[0]) then 1 else 0) + BlockedCount(ticks[1..])
  }

  /** Every blocked call the loop handled picked up the line exactly once:
      on an open modem, the loop adds one `ATH1` to the log per blocked
      call among the ticks it used, and no other. */
  lemma {:induction false} PickupsCountBlockedCalls(m: Modem, running: bool, ticks: seq<Tick>)
    requires m.fd >= 0
    ensures var r := Loop(m, running, ticks);
      multiset(r.modem.log)["ATH1\r"] == multiset(m.log)["ATH1\r"] + BlockedCount(ticks[..r.handled])
    decreases |ticks|
  {
    if running && |ticks| > 0 {
      var t := ticks[0];
      var rest := ticks[1..];
      match t.wait
      case NoCall =>
        if t.running {
          PickupsCountBlockedCalls(m, true, rest);
          PickupsStep(m, m, ticks, Loop(m, true, rest));
        } else {
          CountFirst(ticks, 1);
        }
      case Malformed(_) =>
        CountFirst(ticks, 1);
      case Incoming(call) =>
        var h := Handle(m, call, t.blacklist);
        HandlePickups(m, call, t.blacklist);
        PickupsCountBlockedCalls(h, t.running, rest);
        PickupsStep(m, h, ticks, Loop(h, t.running, rest));
    } else {
      assert ticks[..0] == [];
    }
  }

  /** The pickups of the first tick and those of the loop over the rest add
      up to those of the loop one tick longer. */
  lemma PickupsStep(m: Modem, h: Modem, ticks: seq<Tick>, rest: LoopEnd)
    requires 0 < |ticks| && rest.handled < |ticks|
    requires multiset(h.log)["ATH1\r"] == multiset(m.log)["ATH1\r"] + (if BlocksCall(ticks[0]) then 1 else 0)
    requires multiset(rest.modem.log)["ATH1\r"] == multiset(h.log)["ATH1\r"] + BlockedCount(ticks[1..][..rest.handled])
    ensures multiset(Next(rest).modem.log)["ATH1\r"] == multiset(m.log)["ATH1\r"] + BlockedCount(ticks[..Next(rest).handled])
  {
    CountFirst(ticks, rest.handled + 1);
  }

  /** Counting the blocked calls of a prefix tick by tick. */
  lemma CountFirst(ticks: seq<Tick>, n: nat)
    requires 0 < n <= |ticks|
    ensures BlockedCount(ticks[..n]) == (if BlocksCall(ticks[0]) then 1 else 0) + BlockedCount(ticks[1..][..n - 1])
  {
    assert ticks[..n][1..] == ticks[1..][..n - 1];
  }

  /** Handling a call adds one `ATH1` when it is blocked and none
      otherwise. */
  lemma HandlePickups(m: Modem, call: Call, bl: Blacklist)
    requires m.fd >= 0
    ensures multiset(Handle(m, call, bl).log)["ATH1\r"]
         == multiset(m.log)["ATH1\r"] + (if Blocked(call, bl) then 1 else 0)
  {
    if Blocked(call, bl) {
      var h := Handle(m, call, bl);
      var cmds :| BlockCommands(cmds) && h.log == m.log + cmds;
      assert multiset(h.log) == multiset(m.log) + multiset(cmds);
      PicksUpOnce(cmds);
    }
  }

  /** A loop that meets no blocked call writes nothing to the modem. */
  lemma {:induction false} NoBlockNoCommands(m: Modem, running: bool, ticks: seq<Tick>)
    requires forall k :: 0 <= k < |ticks| ==> !BlocksCall(ticks[k])
    ensures Loop(m, running, ticks).modem == m
    decreases |ticks|
  {
    if running && |ticks| > 0 {
      var t := ticks[0];
      assert !BlocksCall(t);
      match t.wait
      case NoCall =>
        if t.running {
          NoBlockNoCommands(m, true, ticks[1..]);
        }
      case Malformed(_) =>
      case Incoming(call) =>
        NoBlockNoCommands(m, t.running, ticks[1..]);
    }
  }

  /** With no `Blacklist` section in force, the loop never touches the
      modem. */
  lemma EmptyBlacklistNoCommands(m: Modem, running: bool, ticks: seq<Tick>)
    requires forall k :: 0 <= k < |ticks| ==> ticks[k].blacklist == FromConfig(None)
    ensures Loop(m, running, ticks).modem == m
  {
    forall k | 0 <= k < |ticks|
      ensures !BlocksCall(ticks[k])
    {
      if ticks[k].wait.Incoming? {
        NoSectionNeverBlocks(ticks[k].wait.call);
      }
    }
    NoBlockNoCommands(m, running, ticks);
  }

  /** Once the loop has ended, later ticks change nothing: it has stopped or
      crashed for good. */
  lemma {:induction false} EndIsFinal(m: Modem, running: bool, ticks: seq<Tick>, later: seq<Tick>)
    requires !Loop(m, running, ticks).exit.Pending?
    ensures Loop(m, running, ticks + later) == Loop(m, running, ticks)
    decreases |ticks|
  {
    if running {
      var all := ticks + later;
      var t := ticks[0];
      assert all[0] == t && all[1..] == ticks[1..] + later;
      match t.wait
      case NoCall =>
        if t.running {
          EndIsFinal(m, true, ticks[1..], later);
        }
      case Malformed(_) =>
      case Incoming(call) =>
        EndIsFinal(Handle(m, call, t.blacklist), t.running, ticks[1..], later);
    }
  }

  /** A malformed report ends the loop at once, with no command written for
      it. */
  lemma MalformedCrashes(m: Modem, err: ParseError, running: bool, bl: Blacklist, later: seq<Tick>)
    ensures Loop(m, true, [Tick(Malformed(err), running, bl)] + later) == LoopEnd(m, Crashed(err), 1)
  {
  }

  /** Scenario: one call arrives and the flag is then cleared. A blocked call
      on an open modem writes the block commands and nothing else; an
      unblocked one writes nothing. Either way the loop stops after it. */
  lemma SingleCall(m: Modem, call: Call, bl: Blacklist)
    requires m.fd >= 0
    ensures var r := Loop(m, true, [Tick(Incoming(call), false, bl)]);
      && r.exit == Stopped && r.handled == 1
      && (Blocked(call, bl) ==> exists cmds :: BlockCommands(cmds) && r.modem.log == m.log + cmds)
      && (!Blocked(call, bl) ==> r.modem == m)
  {
  }
}
