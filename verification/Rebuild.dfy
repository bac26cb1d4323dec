/**
 The native rebuild: one Cargo command for the whole selection, and stamps that
 tell each service to restart when, and only when, its binary was relinked.
 */
module Rebuild {
  import opened Collections
  import opened Decimals

  // ----- The build command and the scan for its binaries -----

  const BUILD := "forklaunch-native-build"
  const PACKAGE := "--package"
  const BIN := "--bin"

  /** `flag` in front of every name. */
  function Flagged(flag: string, names: seq<string>): seq<string> {
    if names == [] then [] else [flag, names[0]] + Flagged(flag, names[1..])
  }

  function Arguments(packages: seq<string>, binaries: seq<string>): seq<string> {
    Flagged(PACKAGE, packages) + Flagged(BIN, binaries)
  }

  lemma {:induction false} JoinAppend(words: seq<string>, word: string)
    requires words != []
    ensures Join(words + [word], " ") == Join(words, " ") + " " + word
  {
    if |words| == 1 {
      assert (words + [word])[1..] == [word];
    } else {
      assert (words + [word])[1..] == words[1..] + [word];
      JoinAppend(words[1..], word);
    }
  }

  lemma {:induction false} FlaggedAppend(flag: string, names: seq<string>, name: string)
    ensures Flagged(flag, names + [name]) == Flagged(flag, names) + [flag, name]
  {
    if names != [] {
      assert (names + [name])[1..] == names[1..] + [name];
      FlaggedAppend(flag, names[1..], name);
    } else {
      assert (names + [name])[1..] == [];
    }
  }

  method AppendFlagged(start: string, ghost words: seq<string>, flag: string, names: seq<string>)
    returns (command: string)
    requires words != [] && start == Join(words, " ")
    ensures command == Join(words + Flagged(flag, names), " ")
  {
    command := start;
    assert words + [] == words;
    for i := 0 to |names|
      invariant command == Join(words + Flagged(flag, names[..i]), " ")
    {
      ghost var was := words + Flagged(flag, names[..i]);
      FlaggedAppend(flag, names[..i], names[i]);
      assert names[..i + 1] == names[..i] + [names[i]];
      JoinAppend(was, flag);
      JoinAppend(was + [flag], names[i]);
      assert words + Flagged(flag, names[..i + 1]) == was + [flag] + [names[i]];
      command := command + " " + flag + " " + names[i];
    }
    assert names[..|names|] == names;
  }

  method BuildCommand(packages: seq<string>, binaries: seq<string>) returns (command: string)
    ensures command == Join([BUILD] + Arguments(packages, binaries), " ")
  {
    command := AppendFlagged(BUILD, [BUILD], PACKAGE, packages);
    command := AppendFlagged(command, [BUILD] + Flagged(PACKAGE, packages), BIN, binaries);
    assert [BUILD] + Flagged(PACKAGE, packages) + Flagged(BIN, binaries) == [BUILD] + Arguments(packages, binaries);
  }

  lemma {:induction false} FlaggedWords(flag: string, names: seq<string>, word: string)
    requires word in Flagged(flag, names)
    ensures word == flag || word in names
  {
    if names != [] && word in Flagged(flag, names[1..]) {
      FlaggedWords(flag, names[1..], word);
    }
  }

  /** Splitting the command at spaces gives its arguments back when no name has a space. */
  lemma CommandSplits(packages: seq<string>, binaries: seq<string>)
    requires forall n :: n in packages || n in binaries ==> ' ' !in n
    ensures Split(Join([BUILD] + Arguments(packages, binaries), " "), ' ') == [BUILD] + Arguments(packages, binaries)
  {
    var words := [BUILD] + Arguments(packages, binaries);
    forall w | w in words ensures ' ' !in w {
      if w in Flagged(PACKAGE, packages) { FlaggedWords(PACKAGE, packages, w); }
      if w in Flagged(BIN, binaries) { FlaggedWords(BIN, binaries, w); }
    }
    SplitJoin(words, ' ');
  }

  /** The script's scan: every argument that follows a `--bin`. */
  function Scan(arguments: seq<string>, previous: string): seq<string> {
    if arguments == [] then []
    else (if previous == BIN then [arguments[0]] else []) + Scan(arguments[1..], arguments[0])
  }

  lemma ScanStep(arguments: seq<string>, previous: string)
    requires arguments != []
    ensures forall b :: b in Scan(arguments, previous) <==>
              (previous == BIN && b == arguments[0]) || b in Scan(arguments[1..], arguments[0])
  {
  }

  lemma {:induction false} ScanSkipsPackages(packages: seq<string>, rest: seq<string>, previous: string)
    requires previous != BIN && BIN !in packages
    ensures Scan(Flagged(PACKAGE, packages) + rest, previous)
            == Scan(rest, if packages == [] then previous else packages[|packages| - 1])
  {
    if packages == [] {
      assert Flagged(PACKAGE, packages) + rest == rest;
    } else {
      var tail := Flagged(PACKAGE, packages[1..]) + rest;
      var all := Flagged(PACKAGE, packages) + rest;
      assert all == [PACKAGE, packages[0]] + tail;
      assert all[1..] == [packages[0]] + tail && all[1..][1..] == tail;
      ScanSkipsPackages(packages[1..], rest, packages[0]);
    }
  }

  /** What the scan finds among `--bin` flags; a binary named `--bin` is taken for a flag as well. */
  function Found(binaries: seq<string>, previous: string): seq<string> {
    if binaries == [] then []
    else (if previous == BIN then [BIN] else []) + [binaries[0]] + Found(binaries[1..], binaries[0])
  }

  lemma {:induction false} ScanFinds(binaries: seq<string>, previous: string)
    ensures Scan(Flagged(BIN, binaries), previous) == Found(binaries, previous)
  {
    if binaries != [] {
      var tail := Flagged(BIN, binaries[1..]);
      var all := Flagged(BIN, binaries);
      assert all[1..] == [binaries[0]] + tail && all[1..][1..] == tail;
      ScanFinds(binaries[1..], binaries[0]);
    }
  }

  lemma {:induction false} FoundExactly(binaries: seq<string>, previous: string)
    ensures |Found(binaries, previous)| >= |binaries|
    ensures Found(binaries, previous) == binaries <==>
              binaries == [] || (previous != BIN && BIN !in binaries[..|binaries| - 1])
    ensures ToSet(Found(binaries, previous))
            == ToSet(binaries) + if previous == BIN && binaries != [] then {BIN} else {}
  {
    if binaries != [] {
      var rest := Found(binaries[1..], binaries[0]);
      FoundExactly(binaries[1..], binaries[0]);
      assert binaries == [binaries[0]] + binaries[1..];
      assert ToSet(binaries) == {binaries[0]} + ToSet(binaries[1..]);
      if previous != BIN {
        assert Found(binaries, previous) == [binaries[0]] + rest;
        assert Found(binaries, previous) == binaries <==> rest == binaries[1..];
        assert ToSet([binaries[0]] + rest) == {binaries[0]} + ToSet(rest);
        if |binaries| > 1 {
          assert binaries[..|binaries| - 1] == [binaries[0]] + binaries[1..][..|binaries| - 2];
        }
      } else {
        assert Found(binaries, previous) == [BIN] + [binaries[0]] + rest;
        assert |Found(binaries, previous)| > |binaries|;
        assert ToSet([BIN] + [binaries[0]] + rest) == {BIN, binaries[0]} + ToSet(rest);
      }
    }
  }

  /**
   The rebuild recovers the selection from its own command line: always the same
   set of binaries, and the same list exactly when none but the last is called `--bin`.
   */
  lemma SelectionRecovered(packages: seq<string>, binaries: seq<string>)
    requires BIN !in packages
    ensures var found := Scan(Arguments(packages, binaries), "");
            && ToSet(found) == ToSet(binaries)
            && (found == binaries <==> binaries == [] || BIN !in binaries[..|binaries| - 1])
  {
    var previous := if packages == [] then "" else packages[|packages| - 1];
    ScanSkipsPackages(packages, Flagged(BIN, binaries), "");
    ScanFinds(binaries, previous);
    FoundExactly(binaries, previous);
  }

  // ----- Stamps -----

  datatype Event = Relinked(binary: string, time: int) | Stamped(binary: string, time: int)

  function LastRelink(history: seq<Event>, b: string): Option<int> {
    if history == [] then None
    else
      var e := history[|history| - 1];
      if e.Relinked? && e.binary == b then Some(e.time) else LastRelink(history[..|history| - 1], b)
  }

  function LastStamp(history: seq<Event>, b: string): Option<int> {
    if history == [] then None
    else
      var e := history[|history| - 1];
      if e.Stamped? && e.binary == b then Some(e.time) else LastStamp(history[..|history| - 1], b)
  }

  /** The binary was relinked and not stamped afterwards. */
  predicate RelinkedSinceStamp(history: seq<Event>, b: string) {
    history != [] &&
    var e := history[|history| - 1];
    if e.binary == b then e.Relinked? else RelinkedSinceStamp(history[..|history| - 1], b)
  }

  /** The service must restart: its binary is new, or changed since its stamp. */
  predicate Dirty(history: seq<Event>, b: string) {
    LastStamp(history, b).None? || RelinkedSinceStamp(history, b)
  }

  /** What the script looks at: no stamp, or the binary is newer than it. */
  predicate Stale(binaries: map<string, int>, stamps: map<string, int>, b: string) {
    b !in stamps || (b in binaries && binaries[b] > stamps[b])
  }

  /** The last relink carries the time of the last stamp. */
  predicate Tied(history: seq<Event>, b: string) {
    LastStamp(history, b).Some? && LastRelink(history, b) == LastStamp(history, b)
  }

  predicate Ticking(history: seq<Event>, now: int) {
    && (forall i, j :: 0 <= i < j < |history| ==> history[i].time <= history[j].time)
    && (forall i :: 0 <= i < |history| ==> history[i].time <= now)
  }

  lemma {:induction false} LastTimes(history: seq<Event>, now: int, b: string)
    requires Ticking(history, now)
    ensures LastRelink(history, b).Some? ==> LastRelink(history, b).value <= now
    ensures LastStamp(history, b).Some? ==> LastStamp(history, b).value <= now
    ensures RelinkedSinceStamp(history, b) ==> LastRelink(history, b).Some?
    ensures LastRelink(history, b).Some? && LastStamp(history, b).Some? ==>
              if RelinkedSinceStamp(history, b) then LastStamp(history, b).value <= LastRelink(history, b).value
              else LastRelink(history, b).value <= LastStamp(history, b).value
    ensures LastRelink(history, b).Some? && LastStamp(history, b).None? ==> RelinkedSinceStamp(history, b)
  {
    if history != [] {
      var before := history[..|history| - 1];
      var e := history[|history| - 1];
      assert Ticking(before, e.time);
      LastTimes(before, e.time, b);
    }
  }

  ghost predicate Recorded(history: seq<Event>, binaries: map<string, int>, stamps: map<string, int>) {
    && (forall b :: b in binaries <==> LastRelink(history, b).Some?)
    && (forall b :: b in binaries ==> LastRelink(history, b) == Some(binaries[b]))
    && (forall b :: b in stamps <==> LastStamp(history, b).Some?)
    && (forall b :: b in stamps ==> LastStamp(history, b) == Some(stamps[b]))
  }

  /**
   The file times show a needed restart, except when the binary was relinked at
   the very time of its stamp; they never show an unneeded one.
   */
  lemma StaleIffDirty(history: seq<Event>, now: int, binaries: map<string, int>, stamps: map<string, int>, b: string)
    requires Ticking(history, now) && Recorded(history, binaries, stamps)
    ensures Stale(binaries, stamps, b) <==> Dirty(history, b) && !Tied(history, b)
  {
    LastTimes(history, now, b);
  }

  /** Every relink of a stamped binary happens strictly later than the stamp. */
  ghost predicate StrictRelinks(history: seq<Event>) {
    forall i :: 0 <= i < |history| && history[i].Relinked? && LastStamp(history[..i], history[i].binary).Some?
      ==> LastStamp(history[..i], history[i].binary).value < history[i].time
  }

  lemma {:induction false} StrictGap(history: seq<Event>, b: string)
    requires StrictRelinks(history) && RelinkedSinceStamp(history, b) && LastStamp(history, b).Some?
    ensures LastRelink(history, b).Some? && LastStamp(history, b).value < LastRelink(history, b).value
  {
    var n := |history| - 1;
    var e := history[n];
    assert history[..n] == history[..|history| - 1];
    if e.binary != b {
      assert forall i :: 0 <= i < n ==> history[..n][..i] == history[..i];
      StrictGap(history[..n], b);
    } else {
      assert LastStamp(history[..n], e.binary) == LastStamp(history, b);
    }
  }

  lemma BuiltStale(built: seq<Event>, now: int, binaries: map<string, int>, stamps: map<string, int>, b: string)
    requires Ticking(built, now) && Recorded(built, binaries, stamps)
    ensures Stale(binaries, stamps, b) <==> Dirty(built, b) && !Tied(built, b)
    ensures StrictRelinks(built) ==> (Stale(binaries, stamps, b) <==> Dirty(built, b))
  {
    StaleIffDirty(built, now, binaries, stamps, b);
    if StrictRelinks(built) && RelinkedSinceStamp(built, b) && LastStamp(built, b).Some? {
      StrictGap(built, b);
    }
  }

  /** The events are stamps of these binaries, in this order. */
  predicate StampsOf(events: seq<Event>, binaries: seq<string>) {
    |events| == |binaries| && forall i :: 0 <= i < |events| ==> events[i].Stamped? && events[i].binary == binaries[i]
  }

  /** Stamping settles exactly the stamped binaries. */
  lemma {:induction false} DirtyAfterStamps(built: seq<Event>, added: seq<Event>, changed: seq<string>, b: string)
    requires StampsOf(added, changed)
    ensures Dirty(built + added, b) <==> Dirty(built, b) && b !in changed
  {
    if added == [] {
      assert built + added == built;
    } else {
      var n := |added| - 1;
      assert (built + added)[..|built + added| - 1] == built + added[..n];
      assert changed == changed[..n] + [changed[n]];
      DirtyAfterStamps(built, added[..n], changed[..n], b);
    }
  }

  lemma EventAdded(history: seq<Event>, e: Event, b: string)
    ensures LastRelink(history + [e], b)
            == if e.Relinked? && e.binary == b then Some(e.time) else LastRelink(history, b)
    ensures LastStamp(history + [e], b) == if e.Stamped? && e.binary == b then Some(e.time) else LastStamp(history, b)
    ensures RelinkedSinceStamp(history + [e], b) <==>
              if e.binary == b then e.Relinked? else RelinkedSinceStamp(history, b)
  {
    assert (history + [e])[..|history|] == history;
  }

  /** A clock too coarse to tell a relink from the stamp before it loses the relink. */
  lemma TieLosesRelink(b: string, time: int) returns (history: seq<Event>)
    ensures Ticking(history, time) && Recorded(history, map[b := time], map[b := time])
    ensures Dirty(history, b) && Tied(history, b) && !Stale(map[b := time], map[b := time], b)
  {
    var first := [] + [Relinked(b, time)];
    var second := first + [Stamped(b, time)];
    history := second + [Relinked(b, time)];
    forall x
      ensures LastRelink(history, x) == (if x == b then Some(time) else None)
      ensures LastStamp(history, x) == (if x == b then Some(time) else None)
    {
      EventAdded([], Relinked(b, time), x);
      EventAdded(first, Stamped(b, time), x);
      EventAdded(second, Relinked(b, time), x);
    }
    EventAdded(second, Relinked(b, time), b);
  }

  /** Of the binaries seen so far exactly the stale ones were stamped; the others are as before. */
  ghost predicate Settled(binaries: map<string, int>, was: map<string, int>, stamps: map<string, int>,
                          seen: set<string>, changed: seq<string>)
  {
    && (forall b :: b !in changed ==> (Stale(binaries, stamps, b) <==> Stale(binaries, was, b)))
    && (forall b :: b in changed <==> b in seen && Stale(binaries, was, b))
    && (forall b :: b in seen ==> !Stale(binaries, stamps, b))
  }

  lemma SettledOne(binaries: map<string, int>, was: map<string, int>, before: map<string, int>,
                   stamps: map<string, int>,
                   seen: set<string>, changed: seq<string>, b: string, stamped: bool)
    requires Settled(binaries, was, before, seen, changed)
    requires stamped <==> Stale(binaries, before, b)
    requires if stamped
             then b in stamps && stamps == before[b := stamps[b]] && !Stale(binaries, stamps, b)
             else stamps == before
    ensures Settled(binaries, was, stamps, seen + {b}, if stamped then changed + [b] else changed)
    ensures stamped ==> b !in changed
  {
  }

  /** The clock and the target directory of one builder container. */
  class Builder {
    var now: int
    var binaries: map<string, int>
    var stamps: map<string, int>
    var ready: bool
    ghost var history: seq<Event>

    ghost predicate Valid()
      reads this
    {
      Ticking(history, now) && Recorded(history, binaries, stamps)
    }

    constructor (now: int)
      ensures Valid() && history == [] && !ready
    {
      this.now := now;
      binaries, stamps, ready, history := map[], map[], false, [];
    }

    method Relink(b: string, wait: nat)
      requires Valid()
      modifies this
      ensures Valid() && history == old(history) + [Relinked(b, now)] && now == old(now) + wait
      ensures stamps == old(stamps) && ready == old(ready)
    {
      now := now + wait;
      binaries := binaries[b := now];
      history := history + [Relinked(b, now)];
      assert history[..|history| - 1] == old(history);
    }

    method Stamp(b: string, wait: nat)
      requires Valid()
      modifies this
      ensures Valid() && history == old(history) + [Stamped(b, now)] && now == old(now) + wait
      ensures stamps == old(stamps)[b := now] && binaries == old(binaries) && ready == old(ready)
    {
      now := now + wait;
      stamps := stamps[b := now];
      history := history + [Stamped(b, now)];
      assert history[..|history| - 1] == old(history);
    }

    /** Cargo relinks some binaries, whether or not the build succeeds in the end. */
    method Build(relinks: seq<(string, nat)>)
      requires Valid()
      modifies this
      ensures Valid() && stamps == old(stamps) && ready == old(ready)
      ensures old(history) <= history
      ensures forall i :: |old(history)| <= i < |history| ==> history[i].Relinked?
      ensures |history| == |old(history)| + |relinks|
      ensures forall k :: 0 <= k < |relinks| ==> history[|old(history)| + k].binary == relinks[k].0
    {
      for k := 0 to |relinks|
        invariant Valid() && stamps == old(stamps) && ready == old(ready)
        invariant old(history) <= history && |history| == |old(history)| + k
        invariant forall i :: |old(history)| <= i < |history| ==> history[i].Relinked?
        invariant forall j :: 0 <= j < k ==> history[|old(history)| + j].binary == relinks[j].0
      {
        Relink(relinks[k].0, relinks[k].1);
      }
    }

    /** Stamps `b` if the file times ask for it. */
    method StampIfStale(b: string, wait: nat) returns (stamped: bool)
      requires Valid()
      modifies this
      ensures Valid() && binaries == old(binaries) && ready == old(ready)
      ensures stamped <==> Stale(old(binaries), old(stamps), b)
      ensures stamped ==> history == old(history) + [Stamped(b, now)] && stamps == old(stamps)[b := now]
      ensures !stamped ==> history == old(history) && stamps == old(stamps)
      ensures !Stale(binaries, stamps, b)
    {
      stamped := Stale(binaries, stamps, b);
      if stamped {
        LastTimes(history, now, b);
        Stamp(b, wait);
      }
    }

    /** The loop over the script's arguments. */
    method StampSelected(arguments: seq<string>, waits: string -> nat)
      returns (changed: seq<string>, ghost added: seq<Event>)
      requires Valid()
      modifies this
      ensures Valid() && history == old(history) + added && ready == old(ready)
      ensures NoDuplicates(changed) && StampsOf(added, changed)
      ensures forall b :: b in changed <==> b in Scan(arguments, "") && Stale(old(binaries), old(stamps), b)
    {
      changed, added := [], [];
      ghost var seen: set<string> := {};
      var previous := "";
      assert arguments[0..] == arguments;
      for k := 0 to |arguments|
        invariant Valid() && history == old(history) + added && binaries == old(binaries) && ready == old(ready)
        invariant NoDuplicates(changed) && StampsOf(added, changed)
        invariant Settled(binaries, old(stamps), stamps, seen, changed)
        invariant forall b :: b in Scan(arguments, "") <==> b in seen || b in Scan(arguments[k..], previous)
      {
        var argument := arguments[k];
        assert arguments[k..][1..] == arguments[k + 1..] && arguments[k..][0] == argument;
        ScanStep(arguments[k..], previous);
        if previous == BIN {
          ghost var before := stamps;
          var stamped := StampIfStale(argument, waits(argument));
          SettledOne(binaries, old(stamps), before, stamps, seen, changed, argument, stamped);
          if stamped {
            changed := changed + [argument];
            added := added + [Stamped(argument, now)];
          }
          seen := seen + {argument};
        }
        previous := argument;
      }
    }

    /**
     One rebuild. A failed build stamps nothing. A successful one stamps each
     selected binary that needs a restart once, and nothing else; relinks of
     earlier failed builds count. Only a relink at the very time of the previous
     stamp can be missed.
     */
    method Rebuild(arguments: seq<string>, relinks: seq<(string, nat)>, success: bool, waits: string -> nat)
      returns (changed: seq<string>, ghost built: seq<Event>, ghost added: seq<Event>)
      requires Valid()
      modifies this
      ensures Valid() && old(history) <= built && history == built + added
      ensures forall i :: |old(history)| <= i < |built| ==> built[i].Relinked?
      ensures |built| == |old(history)| + |relinks|
      ensures forall k :: 0 <= k < |relinks| ==> built[|old(history)| + k].binary == relinks[k].0
      ensures NoDuplicates(changed) && StampsOf(added, changed)
      ensures !success ==> changed == [] && stamps == old(stamps) && ready == old(ready)
      ensures success ==> ready && forall b :: b in changed <==>
                b in Scan(arguments, "") && Dirty(built, b) && !Tied(built, b)
      ensures success && StrictRelinks(built) ==> forall b :: b in changed <==>
                b in Scan(arguments, "") && Dirty(built, b)
      ensures success && StrictRelinks(built) ==> forall b :: b in Scan(arguments, "") ==> !Dirty(history, b)
    {
      Build(relinks);
      built, added, changed := history, [], [];
      if !success {
        return;
      }
      forall b
        ensures Stale(binaries, stamps, b) <==> Dirty(built, b) && !Tied(built, b)
        ensures StrictRelinks(built) ==> (Stale(binaries, stamps, b) <==> Dirty(built, b))
      {
        BuiltStale(built, now, binaries, stamps, b);
      }
      changed, added := StampSelected(arguments, waits);
      ready := true;
      forall b ensures Dirty(history, b) <==> Dirty(built, b) && b !in changed {
        DirtyAfterStamps(built, added, changed, b);
      }
    }
  }
}
