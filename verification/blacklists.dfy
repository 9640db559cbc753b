/** The blacklist: number prefixes and upper-case name fragments, built from
    the `Blacklist` section of the configuration (callblock.py
    `update_blacklist`), and the decision whether a call is blocked (the
    matching part of `call_loop`). */
module Blacklists {
  import opened Results
  import opened Text
  import opened Calls

  datatype Blacklist = Blacklist(numbers: seq<string>, names: seq<string>)

  /** The blacklist in force when the configuration has no `Blacklist`
      section. */
  const Empty := Blacklist([], [])

  /** `[x for x in xs if x]`. */
  function NonEmpty(xs: seq<string>): (r: seq<string>)
    ensures |r| <= |xs|
    ensures forall x :: x in r <==> x in xs && x != ""
    ensures Flatten(r) == Flatten(xs)
    ensures (forall i :: 0 <= i < |xs| ==> xs[i] != "") ==> r == xs
    ensures |xs| == 1 ==> r == (if xs[0] == "" then [] else xs)
  {
    if |xs| == 0 then []
    else if xs[0] == "" then NonEmpty(xs[1..])
    else [xs[0]] + NonEmpty(xs[1..])
  }

  /** The filter keeps the order of the entries: filtering a concatenation
      concatenates the filtered parts. */
  lemma {:induction false} NonEmptyAppend(xs: seq<string>, ys: seq<string>)
    ensures NonEmpty(xs + ys) == NonEmpty(xs) + NonEmpty(ys)
    decreases |xs|
  {
    if |xs| > 0 {
      var zs := xs + ys;
      assert zs[0] == xs[0] && zs[1..] == xs[1..] + ys;
      NonEmptyAppend(xs[1..], ys);
      if xs[0] == "" {
        assert NonEmpty(zs) == NonEmpty(xs[1..] + ys);
        assert NonEmpty(xs) == NonEmpty(xs[1..]);
      } else {
        assert NonEmpty(zs) == [xs[0]] + NonEmpty(xs[1..] + ys);
        assert NonEmpty(xs) == [xs[0]] + NonEmpty(xs[1..]);
      }
    } else {
      assert xs + ys == ys;
    }
  }

  /** `[x.upper() for x in xs]`. */
  function UpperAll(xs: seq<string>): (r: seq<string>)
    ensures |r| == |xs|
    ensures forall i :: 0 <= i < |xs| ==> r[i] == Upper(xs[i])
  {
    seq(|xs|, i requires 0 <= i < |xs| => Upper(xs[i]))
  }

  /** The entries of one multi-line option value: the value is stripped,
      split at every run of line breaks, and empty pieces are dropped. */
  function Entries(text: string): (r: seq<string>)
    ensures forall e :: e in r ==> e != "" && NoBreaks(e)
    ensures Flatten(r) == DropBreaks(Strip(text))
    ensures AllSpace(text) ==> r == []
  {
    var pieces := SplitLines(Strip(text));
    assert forall e :: e in pieces ==> NoBreaks(e);
    if AllSpace(text) then
      StripBlank(text);
      assert pieces == [""];
      NonEmpty(pieces)
    else NonEmpty(pieces)
  }

  /** An entry as a configuration can list it: non-empty, on one line, and
      neither starting nor ending with whitespace. */
  predicate Entry(e: string) {
    e != "" && NoBreaks(e) && !IsSpace(e[0]) && !IsSpace(e[|e| - 1])
  }

  /** A value listing entries separated by any runs of line breaks, with
      any whitespace before the first and after the last (as a multi-line
      option starting on the line after its key reads), yields exactly
      those entries, in order. */
  lemma EntriesOfLines(pre: string, lines: seq<string>, gaps: seq<string>, post: string)
    requires AllSpace(pre) && AllSpace(post)
    requires |lines| == |gaps| + 1 && AllRuns(gaps)
    requires forall i :: 0 <= i < |lines| ==> Entry(lines[i])
    ensures Entries(pre + Weave(lines, gaps) + post) == lines
  {
    var text := Weave(lines, gaps);
    WeaveEnds(lines, gaps);
    StripPadded(pre, text, post);
    SplitLinesWoven(lines, gaps);
    EntriesOfPieces(pre + text + post, lines);
  }

  /** Text that strips to itself and splits into non-empty lines has those
      lines as entries. */
  lemma EntriesOfPieces(text: string, lines: seq<string>)
    requires SplitLines(Strip(text)) == lines
    requires forall i :: 0 <= i < |lines| ==> lines[i] != ""
    ensures Entries(text) == lines
  {
  }

  /** `update_blacklist`: `section` holds the `Numbers` and `Names` values
      of the `Blacklist` section when the configuration has one (a missing
      option reads as the empty string). Numbers are kept as written, names
      are upper-cased; a missing section gives the empty blacklist. */
  function FromConfig(section: Option<(string, string)>): (b: Blacklist)
    ensures section.None? ==> b == Empty
    ensures forall e :: e in b.numbers ==> e != "" && NoBreaks(e)
    ensures forall e :: e in b.names ==> e != "" && NoBreaks(e) && IsUpperCase(e)
    ensures section.Some? ==> Flatten(b.numbers) == DropBreaks(Strip(section.value.0))
    ensures section.Some? ==> Flatten(b.names) == Upper(DropBreaks(Strip(section.value.1)))
  {
    match section
    case None => Empty
    case Some((numbers, names)) =>
      var nameEntries := Entries(names);
      FlattenUpperAll(nameEntries);
      forall e | e in UpperAll(nameEntries)
        ensures e != "" && NoBreaks(e) && IsUpperCase(e)
      {
        var i :| 0 <= i < |nameEntries| && UpperAll(nameEntries)[i] == e;
        assert nameEntries[i] in nameEntries;
        UpperIsUpperCase(nameEntries[i]);
      }
      Blacklist(Entries(numbers), UpperAll(nameEntries))
  }

  /** How one option's value is laid out: blank throughout, or entries on
      lines of their own, separated by runs of line breaks and padded by
      blanks of its own on either side. */
  datatype Listing =
    | Blank(space: string)
    | Lines(pre: string, entries: seq<string>, gaps: seq<string>, post: string)

  predicate WellFormed(l: Listing) {
    match l
    case Blank(space) => AllSpace(space)
    case Lines(pre, entries, gaps, post) =>
      && AllSpace(pre) && AllSpace(post)
      && |entries| == |gaps| + 1 && AllRuns(gaps)
      && forall i :: 0 <= i < |entries| ==> Entry(entries[i])
  }

  /** The option value a listing spells. */
  function Value(l: Listing): string
    requires WellFormed(l)
  {
    match l
    case Blank(space) => space
    case Lines(pre, entries, gaps, post) => pre + Weave(entries, gaps) + post
  }

  /** The entries a listing lists, in order. */
  function Listed(l: Listing): seq<string> {
    match l
    case Blank(_) => []
    case Lines(_, entries, _, _) => entries
  }

  /** An option value yields exactly the entries it lists. */
  lemma EntriesOfListing(l: Listing)
    requires WellFormed(l)
    ensures Entries(Value(l)) == Listed(l)
  {
    if l.Lines? {
      EntriesOfLines(l.pre, l.entries, l.gaps, l.post);
    }
  }

  /** The blacklist holds exactly the listed numbers, and the listed names
      upper-cased, in the order the configuration lists them; each option
      is laid out on its own, and a blank one lists nothing. */
  lemma FromConfigOfLines(numbers: Listing, names: Listing)
    requires WellFormed(numbers) && WellFormed(names)
    ensures FromConfig(Some((Value(numbers), Value(names))))
         == Blacklist(Listed(numbers), UpperAll(Listed(names)))
  {
    EntriesOfListing(numbers);
    EntriesOfListing(names);
  }

  /** Scenario: `Numbers` listing `2025` and `555` on the lines after the
      key, and no `Names`, give the two prefixes. */
  lemma ConfigScenario(numbers: string, names: string)
    requires numbers == "\n2025\n555" && names == ""
    ensures FromConfig(Some((numbers, names))) == Blacklist(["2025", "555"], [])
  {
    var listing := Lines("\n", ["2025", "555"], ["\n"], "");
    assert Entry(listing.entries[0]) && Entry(listing.entries[1]) && BreakRun("\n") && AllSpace("\n");
    assert numbers == Value(listing);
    FromConfigOfLines(listing, Blank(names));
  }

  /** Upper-casing every entry upper-cases their concatenation. */
  lemma {:induction false} FlattenUpperAll(xs: seq<string>)
    ensures Flatten(UpperAll(xs)) == Upper(Flatten(xs))
    decreases |xs|
  {
    if |xs| > 0 {
      FlattenUpperAll(xs[1..]);
      assert UpperAll(xs)[1..] == UpperAll(xs[1..]);
      assert Upper(xs[0] + Flatten(xs[1..])) == Upper(xs[0]) + Upper(Flatten(xs[1..]));
    }
  }

  /** Which entry, if any, decides that a call is blocked. */
  datatype Verdict = NumberMatch(index: nat) | NameMatch(index: nat) | Pass

  /** The first prefix in `prefixes` that `number` starts with. */
  function FirstPrefix(number: string, prefixes: seq<string>): (r: Option<nat>)
    ensures r.Some? ==> r.value < |prefixes| && StartsWith(number, prefixes[r.value])
    ensures r.Some? ==> forall j :: 0 <= j < r.value ==> !StartsWith(number, prefixes[j])
    ensures r.None? ==> forall j :: 0 <= j < |prefixes| ==> !StartsWith(number, prefixes[j])
  {
    if |prefixes| == 0 then None
    else if StartsWith(number, prefixes[0]) then Some(0)
    else match FirstPrefix(number, prefixes[1..])
      case None => None
      case Some(i) => Some(i + 1)
  }

  /** The first entry of `fragments` that occurs in `name`. */
  function FirstFragment(name: string, fragments: seq<string>): (r: Option<nat>)
    ensures r.Some? ==> r.value < |fragments| && Contains(name, fragments[r.value])
    ensures r.Some? ==> forall j :: 0 <= j < r.value ==> !Contains(name, fragments[j])
    ensures r.None? ==> forall j :: 0 <= j < |fragments| ==> !Contains(name, fragments[j])
  {
    if |fragments| == 0 then None
    else if Contains(name, fragments[0]) then Some(0)
    else match FirstFragment(name, fragments[1..])
      case None => None
      case Some(i) => Some(i + 1)
  }

  /** The blocking decision of `call_loop`: the numbers are scanned first
      and the first prefix of the caller's number decides; the names are
      scanned only when no number matched, and the first fragment of the
      caller's name decides. */
  function Judge(call: Call, bl: Blacklist): (v: Verdict)
    ensures v.NumberMatch? ==>
      && v.index < |bl.numbers|
      && StartsWith(call.number, bl.numbers[v.index])
      && forall j :: 0 <= j < v.index ==> !StartsWith(call.number, bl.numbers[j])
    ensures !v.NumberMatch? ==> forall j :: 0 <= j < |bl.numbers| ==> !StartsWith(call.number, bl.numbers[j])
    ensures v.NameMatch? ==>
      && v.index < |bl.names|
      && Contains(call.name, bl.names[v.index])
      && forall j :: 0 <= j < v.index ==> !Contains(call.name, bl.names[j])
    ensures v.Pass? ==> forall j :: 0 <= j < |bl.names| ==> !Contains(call.name, bl.names[j])
  {
    match FirstPrefix(call.number, bl.numbers)
    case Some(i) => NumberMatch(i)
    case None =>
      match FirstFragment(call.name, bl.names)
      case Some(j) => NameMatch(j)
      case None => Pass
  }

  predicate Blocked(call: Call, bl: Blacklist) {
    !Judge(call, bl).Pass?
  }

  /** A call is blocked exactly when some number entry is a prefix of its
      number or some name entry occurs in its name. */
  lemma BlockedIff(call: Call, bl: Blacklist)
    ensures Blocked(call, bl) <==>
      || (exists i :: 0 <= i < |bl.numbers| && StartsWith(call.number, bl.numbers[i]))
      || (exists j :: 0 <= j < |bl.names| && Contains(call.name, bl.names[j]))
  {
  }

  /** The matching loops of `call_loop` as written: scan the numbers and stop
      at the first prefix; scan the names only if no number matched. */
  method IsBlocked(call: Call, bl: Blacklist) returns (block: bool)
    ensures block <==>
      || (exists i :: 0 <= i < |bl.numbers| && StartsWith(call.number, bl.numbers[i]))
      || (exists j :: 0 <= j < |bl.names| && Contains(call.name, bl.names[j]))
    ensures block == Blocked(call, bl)
  {
    block := false;
    var i := 0;
    while i < |bl.numbers|
      invariant 0 <= i <= |bl.numbers|
      invariant !block
      invariant forall k :: 0 <= k < i ==> !StartsWith(call.number, bl.numbers[k])
    {
      if StartsWith(call.number, bl.numbers[i]) {
        block := true;
        break;
      }
      i := i + 1;
    }
    if !block {
      var j := 0;
      while j < |bl.names|
        invariant 0 <= j <= |bl.names|
        invariant !block
        invariant forall k :: 0 <= k < j ==> !Contains(call.name, bl.names[k])
      {
        if Contains(call.name, bl.names[j]) {
          block := true;
          break;
        }
        j := j + 1;
      }
    }
  }

  /** A number match blocks the call whatever the caller's name is. */
  lemma NumberMatchIgnoresName(call: Call, bl: Blacklist, p: string, name: string)
    requires p in bl.numbers && StartsWith(call.number, p)
    ensures Judge(call, bl).NumberMatch?
    ensures Judge(call.(name := name), bl) == Judge(call, bl)
  {
    var i :| 0 <= i < |bl.numbers| && bl.numbers[i] == p;
  }

  /** Without a `Blacklist` section no call is ever blocked. */
  lemma NoSectionNeverBlocks(call: Call)
    ensures !Blocked(call, FromConfig(None))
  {
  }

  /** Scenario: the prefix `2025` blocks `2025551234`. */
  lemma NumberScenario(stamp: Stamp, name: string)
    ensures Judge(MakeCall(stamp, "2025551234", name), Blacklist(["2025"], [])) == NumberMatch(0)
  {
    assert "2025551234"[..4] == "2025";
  }

  /** Scenario: the name entry `TELEMARKETER` blocks `ACME TELEMARKETER INC`
      through the name scan. */
  lemma NameScenario(stamp: Stamp, number: string, name: string, entry: string)
    requires name == "ACME TELEMARKETER INC" && entry == "TELEMARKETER"
    ensures Judge(Call(stamp, number, name), Blacklist([], [entry])) == NameMatch(0)
  {
    assert name == "ACME " + entry + " INC";
    FragmentInside("ACME ", entry, " INC");
  }

  /** A fragment occurs in any text around it. */
  lemma FragmentInside(a: string, entry: string, b: string)
    ensures Contains(a + entry + b, entry)
  {
    assert OccursAt(entry, entry, 0);
    ContainsExtended(a, entry, b, entry);
  }
}
