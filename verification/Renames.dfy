/** The algebra of renames: what a list of sequential `UPDATE`s does to one stored name, and
    exactly when delivering part of the list again does nothing. */
module Renames {

  datatype Rename = Rename(former: string, current: string)

  function One(r: Rename, name: string): string {
    if name == r.former then r.current else name
  }

  /** `UPDATE … SET c = current WHERE c = former`, once per rename, in order. */
  function ApplyAll(rs: seq<Rename>, name: string): string
    decreases |rs|
  {
    if rs == [] then name else ApplyAll(rs[1..], One(rs[0], name))
  }

  lemma {:induction false} ApplyConcat(a: seq<Rename>, b: seq<Rename>, name: string)
    ensures ApplyAll(a + b, name) == ApplyAll(b, ApplyAll(a, name))
    decreases |a|
  {
    if a == [] {
      assert a + b == b;
    } else {
      assert (a + b)[1..] == a[1..] + b;
      ApplyConcat(a[1..], b, One(a[0], name));
    }
  }

  // ----- redelivery of a list with gaps ----------------------------------------------------

  /** A name renamed away from is gone: no later rename gives it out, and so none renames it again. */
  ghost predicate NeverGivenOutAgain(rs: seq<Rename>) {
    forall i, j | 0 <= i < j < |rs| :: rs[j].current != rs[i].former && rs[j].former != rs[i].former
  }

  /** `part` is `whole` with some entries left out. */
  ghost predicate Subsequence(part: seq<Rename>, whole: seq<Rename>)
    decreases |whole|
  {
    if whole == [] then part == []
    else Subsequence(part, whole[1..]) || (part != [] && part[0] == whole[0] && Subsequence(part[1..], whole[1..]))
  }

  lemma {:induction false} SubsequenceMembers(part: seq<Rename>, whole: seq<Rename>)
    requires Subsequence(part, whole)
    ensures forall r | r in part :: r in whole
    decreases |whole|
  {
    if whole != [] {
      if Subsequence(part, whole[1..]) {
        SubsequenceMembers(part, whole[1..]);
      } else {
        SubsequenceMembers(part[1..], whole[1..]);
        assert part == [part[0]] + part[1..];
      }
    }
  }

  lemma {:induction false} Untouched(rs: seq<Rename>, name: string)
    requires forall r | r in rs :: r.former != name
    ensures ApplyAll(rs, name) == name
    decreases |rs|
  {
    if rs != [] {
      assert rs[0] in rs;
      Untouched(rs[1..], name);
    }
  }

  /** A name no rename gives out is reached by nobody else. */
  lemma {:induction false} Unreached(rs: seq<Rename>, name: string, gone: string)
    requires name != gone && forall r | r in rs :: r.current != gone
    ensures ApplyAll(rs, name) != gone
    decreases |rs|
  {
    if rs != [] {
      assert rs[0] in rs;
      Unreached(rs[1..], One(rs[0], name), gone);
    }
  }

  /** Over a list in which names retire, exactly the names that it renames away move, and for good. */
  lemma {:induction false} MovesExactly(rs: seq<Rename>, name: string)
    requires NeverGivenOutAgain(rs)
    ensures ApplyAll(rs, name) == name <==> forall r | r in rs :: r.former == name ==> r.current == name
    decreases |rs|
  {
    if rs != [] {
      var first, rest := rs[0], rs[1..];
      assert rs == [first] + rest && first in rs;
      assert forall i | 0 <= i < |rest| :: rest[i] == rs[i + 1];
      if first.former != name {
        MovesExactly(rest, name);
      } else {
        assert forall r | r in rest :: r.former != name && r.current != name;
        if first.current == name { Untouched(rest, name); } else { Unreached(rest, first.current, name); }
      }
    }
  }

  /** Having applied any part of a list, applying the whole list lands where applying only the
      whole list would have: gaps are filled and nothing is done twice. */
  lemma {:induction false} RedeliveryHeals(part: seq<Rename>, whole: seq<Rename>, name: string)
    requires NeverGivenOutAgain(whole) && Subsequence(part, whole)
    ensures ApplyAll(whole, ApplyAll(part, name)) == ApplyAll(whole, name)
    decreases |whole|
  {
    if whole == [] {
    } else {
      var first, rest := whole[0], whole[1..];
      assert NeverGivenOutAgain(rest);
      forall r | r in rest ensures r.current != first.former && r.former != first.former {
        var j :| 0 <= j < |rest| && rest[j] == r;
        assert whole[j + 1] == r;
      }
      if Subsequence(part, rest) {
        SubsequenceMembers(part, rest);
        if name == first.former {
          Untouched(part, name);
        } else {
          Unreached(part, name, first.former);
          RedeliveryHeals(part, rest, name);
        }
      } else {
        var name' := One(first, name);
        SubsequenceMembers(part[1..], rest);
        RedeliveryHeals(part[1..], rest, name');
        if name' == first.former {
          Untouched(part[1..], name');
        } else {
          Unreached(part[1..], name', first.former);
        }
      }
    }
  }

  // ----- the directory behind a feed ---------------------------------------------------------

  /** What happens to the accounts whose names the feed reports. Only `Renamed` is ever fed. */
  datatype Event =
    | Renamed(holder: nat, former: string, current: string)
    | Joined(holder: nat, current: string)

  type Directory = map<nat, string>

  predicate Unique(dir: Directory) {
    forall g, h | g in dir && h in dir && dir[g] == dir[h] :: g == h
  }

  /** The event can happen: a holder gives up the name it has, or arrives, for a name nobody has. */
  predicate Possible(dir: Directory, e: Event) {
    && (forall h | h in dir && h != e.holder :: dir[h] != e.current)
    && (match e
        case Renamed(holder, former, _) => holder in dir && dir[holder] == former
        case Joined(holder, _) => holder !in dir)
  }

  function After(dir: Directory, events: seq<Event>): Directory
    decreases |events|
  {
    if events == [] then dir else After(dir[events[0].holder := events[0].current], events[1..])
  }

  ghost predicate Genuine(dir: Directory, events: seq<Event>)
    decreases |events|
  {
    events == [] || (Possible(dir, events[0]) && Genuine(dir[events[0].holder := events[0].current], events[1..]))
  }

  /** The feed's list for a stretch of events. */
  function Feed(events: seq<Event>): seq<Rename>
    decreases |events|
  {
    if events == [] then []
    else (if events[0].Renamed? then [Rename(events[0].former, events[0].current)] else []) + Feed(events[1..])
  }

  lemma {:induction false} UniqueAfter(dir: Directory, events: seq<Event>)
    requires Unique(dir) && Genuine(dir, events)
    ensures Unique(After(dir, events)) && dir.Keys <= After(dir, events).Keys
    decreases |events|
  {
    if events != [] {
      UniqueAfter(dir[events[0].holder := events[0].current], events[1..]);
    }
  }

  lemma {:induction false} SplitEvents(dir: Directory, events: seq<Event>, k: nat)
    requires k <= |events| && Genuine(dir, events)
    ensures Genuine(dir, events[..k]) && Genuine(After(dir, events[..k]), events[k..])
    ensures After(After(dir, events[..k]), events[k..]) == After(dir, events)
    decreases k
  {
    if k == 0 {
      assert events[..0] == [] && events[0..] == events;
    } else {
      assert events[1..][..k - 1] == events[..k][1..];
      assert events[1..][k - 1..] == events[k..];
      SplitEvents(dir[events[0].holder := events[0].current], events[1..], k - 1);
    }
  }

  /** Delivered once and in order, the feed keeps a stored name on its holder. */
  lemma {:induction false} FollowsHolder(dir: Directory, events: seq<Event>, h: nat)
    requires Unique(dir) && Genuine(dir, events) && h in dir
    ensures h in After(dir, events) && ApplyAll(Feed(events), dir[h]) == After(dir, events)[h]
    decreases |events|
  {
    if events != [] {
      var e := events[0];
      FollowsHolder(dir[e.holder := e.current], events[1..], h);
      ApplyConcat(if e.Renamed? then [Rename(e.former, e.current)] else [], Feed(events[1..]), dir[h]);
    }
  }

  /** No name goes from one holder to another: only its former holder gets a name back. */
  ghost predicate NoTransfer(events: seq<Event>) {
    forall i, j | 0 <= i < j < |events| && events[i].Renamed? && events[i].holder != events[j].holder ::
      events[j].current != events[i].former
  }

  /** Delivering any stretch up to now once more leaves every right name alone. */
  ghost predicate RedeliveryHarmless(dir: Directory, events: seq<Event>) {
    forall k, p, h | 0 <= k <= p <= |events| && h in After(dir, events[..p]) ::
      ApplyAll(Feed(events[k..p]), After(dir, events[..p])[h]) == After(dir, events[..p])[h]
  }

  /** Whoever has a name that it did not have before was given it in between. */
  lemma {:induction false} Acquired(dir: Directory, events: seq<Event>, h: nat, name: string) returns (j: nat)
    requires Genuine(dir, events) && !(h in dir && dir[h] == name)
    requires h in After(dir, events) && After(dir, events)[h] == name
    ensures j < |events| && events[j].holder == h && events[j].current == name
    decreases |events|
  {
    var e := events[0];
    if e.holder == h && e.current == name {
      j := 0;
    } else {
      j := Acquired(dir[e.holder := e.current], events[1..], h, name);
      j := j + 1;
    }
  }

  /** One redelivered stretch: the value is either where it should end or in step with its holder. */
  lemma {:induction false} RedeliveredStretch(dir: Directory, events: seq<Event>, h: nat, name: string)
    requires Unique(dir) && Genuine(dir, events)
    requires h in After(dir, events)
    requires name == After(dir, events)[h] || (h in dir && name == dir[h])
    requires forall i | 0 <= i < |events| && events[i].Renamed? && events[i].holder != h ::
             events[i].former != After(dir, events)[h]
    ensures ApplyAll(Feed(events), name) == After(dir, events)[h]
    decreases |events|
  {
    if events != [] {
      var e := events[0];
      var dir' := dir[e.holder := e.current];
      ApplyConcat(if e.Renamed? then [Rename(e.former, e.current)] else [], Feed(events[1..]), name);
      var name' := if e.Renamed? then One(Rename(e.former, e.current), name) else name;
      assert forall i | 0 <= i < |events[1..]| :: events[1..][i] == events[i + 1];
      RedeliveredStretch(dir', events[1..], h, name');
    }
  }

  lemma PrefixStretch(dir: Directory, events: seq<Event>, k: nat, p: nat)
    requires k <= p <= |events| && Genuine(dir, events)
    ensures Genuine(dir, events[..k]) && Genuine(After(dir, events[..k]), events[k..p])
    ensures After(After(dir, events[..k]), events[k..p]) == After(dir, events[..p])
  {
    SplitEvents(dir, events, p);
    SplitEvents(dir, events[..p], k);
    assert events[..p][..k] == events[..k] && events[..p][k..] == events[k..p];
  }

  /** In a log where no name passes on, a name held later was given up by nobody else since. */
  lemma NobodyElseGaveItUp(dir: Directory, events: seq<Event>, k: nat, p: nat, h: nat, i: nat)
    requires Unique(dir) && Genuine(dir, events) && NoTransfer(events)
    requires k <= k + i < p <= |events| && h in After(dir, events[..p])
    requires events[k + i].Renamed? && events[k + i].holder != h
    ensures events[k + i].former != After(dir, events[..p])[h]
  {
    if events[k + i].former == After(dir, events[..p])[h] {
      PrefixStretch(dir, events, k + i, p);
      SplitEvents(dir, events, k + i);
      UniqueAfter(dir, events[..k + i]);
      assert events[k + i..][0] == events[k + i];
      var j := Acquired(After(dir, events[..k + i]), events[k + i..p], h, After(dir, events[..p])[h]);
    }
  }

  lemma StretchIsHarmless(dir: Directory, events: seq<Event>, k: nat, p: nat, h: nat)
    requires Unique(dir) && Genuine(dir, events) && NoTransfer(events)
    requires k <= p <= |events| && h in After(dir, events[..p])
    ensures ApplyAll(Feed(events[k..p]), After(dir, events[..p])[h]) == After(dir, events[..p])[h]
  {
    var stretch, name := events[k..p], After(dir, events[..p])[h];
    PrefixStretch(dir, events, k, p);
    UniqueAfter(dir, events[..k]);
    forall i | 0 <= i < |stretch| && stretch[i].Renamed? && stretch[i].holder != h ensures stretch[i].former != name {
      NobodyElseGaveItUp(dir, events, k, p, h, i);
    }
    RedeliveredStretch(After(dir, events[..k]), stretch, h, name);
  }

  lemma TransferFreeIsHarmless(dir: Directory, events: seq<Event>)
    requires Unique(dir) && Genuine(dir, events) && NoTransfer(events)
    ensures RedeliveryHarmless(dir, events)
  {
    forall k, p, h | 0 <= k <= p <= |events| && h in After(dir, events[..p])
      ensures ApplyAll(Feed(events[k..p]), After(dir, events[..p])[h]) == After(dir, events[..p])[h]
    {
      StretchIsHarmless(dir, events, k, p, h);
    }
  }

  lemma TransferIsHarmful(dir: Directory, events: seq<Event>, i: nat, j: nat)
    requires Unique(dir) && Genuine(dir, events)
    requires i < j < |events| && events[i].Renamed? && events[i].holder != events[j].holder
    requires events[j].current == events[i].former
    ensures !RedeliveryHarmless(dir, events)
  {
    var giver, taker, name, p := events[i].holder, events[j].holder, events[i].former, j + 1;
    PrefixStretch(dir, events, i, p);
    SplitEvents(dir, events, i);
    SplitEvents(dir, events, p);
    UniqueAfter(dir, events[..i]);
    UniqueAfter(dir, events[..p]);
    UniqueAfter(After(dir, events[..i]), events[i..p]);
    assert events[i..][0] == events[i];
    PrefixStretch(dir, events, j, p);
    assert events[j..p] == [events[j]];
    assert After(dir, events[..p])[taker] == name;
    // delivered again, the stretch carries the taker's name off with its former holder
    FollowsHolder(After(dir, events[..i]), events[i..p], giver);
  }

  /** The claim that applying a rename twice is a no-op, made exact. Whatever stretch is delivered
      again, right names stay right if and only if no name ever passes to another holder. */
  lemma HarmlessExactlyWithoutTransfer(dir: Directory, events: seq<Event>)
    requires Unique(dir) && Genuine(dir, events)
    ensures RedeliveryHarmless(dir, events) <==> NoTransfer(events)
  {
    if NoTransfer(events) {
      TransferFreeIsHarmless(dir, events);
    } else {
      var i, j :| 0 <= i < j < |events| && events[i].Renamed? && events[i].holder != events[j].holder &&
                   events[j].current == events[i].former;
      TransferIsHarmful(dir, events, i, j);
    }
  }

  /** The smallest victim: `a` moves to `b`, the newcomer gets `a`, and the rename comes again. */
  lemma RenamingTwiceMovesTheNewcomer()
    ensures var dir, events := map[1 := "a"], [Renamed(1, "a", "b"), Joined(2, "a")];
            && Unique(dir) && Genuine(dir, events) && After(dir, events)[2] == "a"
            && ApplyAll(Feed(events), After(dir, events)[2]) == "b"
  {
    var dir, events := map[1 := "a"], [Renamed(1, "a", "b"), Joined(2, "a")];
    assert events[1..] == [Joined(2, "a")];
    assert [Joined(2, "a")][1..] == [];
    assert Feed(events[1..]) == [];
    assert Feed(events) == [Rename("a", "b")];
    var dir1: Directory := map[1 := "b"];
    assert dir[1 := "b"] == dir1;
    assert Genuine(dir1, [Joined(2, "a")]);
    assert After(dir, events) == After(dir1, [Joined(2, "a")]) == dir1[2 := "a"];
  }

  /** On a genuine history, never giving a name out again is all `NeverGivenOutAgain` asks. */
  lemma {:induction false} GenuineFeedNeverRepeats(dir: Directory, events: seq<Event>)
    requires Unique(dir) && Genuine(dir, events)
    requires forall i, j | 0 <= i < j < |events| && events[i].Renamed? :: events[j].current != events[i].former
    requires forall i | 0 <= i < |events| && events[i].Renamed? :: events[i].current != events[i].former
    ensures NeverGivenOutAgain(Feed(events))
    decreases |events|
  {
    if events != [] {
      var e, rest := events[0], events[1..];
      assert forall i | 0 <= i < |rest| :: rest[i] == events[i + 1];
      GenuineFeedNeverRepeats(dir[e.holder := e.current], rest);
      if e.Renamed? {
        NobodyHasIt(dir[e.holder := e.current], rest, e.former);
        var feed := Feed(rest);
        assert Feed(events) == [Rename(e.former, e.current)] + feed;
        assert forall j | 1 <= j < |Feed(events)| :: Feed(events)[j] == feed[j - 1];
      }
    }
  }

  lemma {:induction false} NobodyHasIt(dir: Directory, events: seq<Event>, name: string)
    requires Genuine(dir, events)
    requires forall h | h in dir :: dir[h] != name
    requires forall j | 0 <= j < |events| :: events[j].current != name
    ensures forall r | r in Feed(events) :: r.former != name && r.current != name
    decreases |events|
  {
    if events != [] {
      assert forall i | 0 <= i < |events[1..]| :: events[1..][i] == events[i + 1];
      NobodyHasIt(dir[events[0].holder := events[0].current], events[1..], name);
    }
  }
}
