/** The handlers file that the export tests, running in parallel, append to one at a time under a
    file lock. */
module HandlersFile {
  import opened Ordering
  import opened RouteTables

  function Retain(file: seq<Handler>, fqname: string): seq<Handler> {
    if file == [] then []
    else (if file[0].fqname != fqname then [file[0]] else []) + Retain(file[1..], fqname)
  }

  function Upsert(file: seq<Handler>, h: Handler): seq<Handler> {
    Sort(HandlerKey, Retain(file, h.fqname) + [h])
  }

  class HandlersFile {
    var handlers: seq<Handler>

    constructor ()
      ensures handlers == []
    {
      handlers := [];
    }

    /** One append, with the lock held throughout. */
    method Append(h: Handler)
      modifies this
      ensures handlers == Upsert(old(handlers), h)
      ensures Strict(HandlerKey, old(handlers)) ==> Strict(HandlerKey, handlers)
      ensures Strict(HandlerKey, old(handlers)) ==>
                forall x :: x in handlers <==> x == h || (x in old(handlers) && x.fqname != h.fqname)
    {
      if Strict(HandlerKey, handlers) { UpsertReplaces(handlers, h); }
      var kept := Retain(handlers, h.fqname);
      handlers := kept + [h];
      handlers := Sort(HandlerKey, handlers);
    }
  }

  lemma {:induction false} RetainKeeps(file: seq<Handler>, fqname: string)
    ensures forall x :: x in Retain(file, fqname) <==> x in file && x.fqname != fqname
    ensures Distinct(HandlerKey, file) ==> Distinct(HandlerKey, Retain(file, fqname))
  {
    if file != [] {
      var rest := Retain(file[1..], fqname);
      RetainKeeps(file[1..], fqname);
      assert file == [file[0]] + file[1..];
      if Distinct(HandlerKey, file) {
        assert Distinct(HandlerKey, file[1..]) by {
          forall i, j | 0 <= i < j < |file[1..]| ensures HandlerKey(file[1..][i]) != HandlerKey(file[1..][j]) {
            assert HandlerKey(file[i + 1]) != HandlerKey(file[j + 1]);
          }
        }
        forall k | 0 <= k < |rest| ensures HandlerKey(rest[k]) != HandlerKey(file[0]) {
          assert rest[k] in rest;
          var m :| 0 <= m < |file[1..]| && file[1..][m] == rest[k];
          assert HandlerKey(file[0]) != HandlerKey(file[m + 1]);
        }
      }
    }
  }

  /** An append to a sorted file leaves it sorted, with the handler's entry replaced and every other
      as it was. */
  lemma UpsertReplaces(file: seq<Handler>, h: Handler)
    requires Strict(HandlerKey, file)
    ensures Strict(HandlerKey, Upsert(file, h))
    ensures forall x :: x in Upsert(file, h) <==> x == h || (x in file && x.fqname != h.fqname)
  {
    StrictIsDistinct(HandlerKey, file);
    RetainKeeps(file, h.fqname);
    var kept := Retain(file, h.fqname);
    forall i | 0 <= i < |kept| ensures HandlerKey(kept[i]) != HandlerKey(h) {
      assert kept[i] in kept && HandlerKey(kept[i])[0] != HandlerKey(h)[0];
    }
    SortStrict(HandlerKey, kept + [h]);
    SortKeeps(HandlerKey, kept + [h]);
  }

  /** The file after appends that took the lock in this order. */
  function Appended(file: seq<Handler>, hs: seq<Handler>): seq<Handler>
    decreases |hs|
  {
    if hs == [] then file else Upsert(Appended(file, hs[..|hs| - 1]), hs[|hs| - 1])
  }

  /** The last append under each name. */
  predicate LastOf(hs: seq<Handler>, x: Handler) {
    exists i :: 0 <= i < |hs| && hs[i] == x && forall j | i < j < |hs| :: hs[j].fqname != x.fqname
  }

  predicate Named(hs: seq<Handler>, fqname: string) { exists i :: 0 <= i < |hs| && hs[i].fqname == fqname }

  lemma LastStep(hs: seq<Handler>, h: Handler, x: Handler)
    ensures LastOf(hs + [h], x) <==> x == h || (LastOf(hs, x) && x.fqname != h.fqname)
    ensures Named(hs + [h], x.fqname) <==> x.fqname == h.fqname || Named(hs, x.fqname)
  {
    var all := hs + [h];
    assert all[|hs|] == h;
    if LastOf(hs, x) && x.fqname != h.fqname {
      var i :| 0 <= i < |hs| && hs[i] == x && forall j | i < j < |hs| :: hs[j].fqname != x.fqname;
      assert all[i] == x;
    }
    if LastOf(all, x) && x != h {
      var i :| 0 <= i < |all| && all[i] == x && forall j | i < j < |all| :: all[j].fqname != x.fqname;
      assert i < |hs| && hs[i] == x;
      forall j | i < j < |hs| ensures hs[j].fqname != x.fqname { assert all[j] == hs[j]; }
    }
    if Named(hs, x.fqname) {
      var i :| 0 <= i < |hs| && hs[i].fqname == x.fqname;
      assert all[i].fqname == x.fqname;
    }
  }

  /** Whatever order the lock is taken in, the file stays strictly sorted and holds, for every name
      appended, the last handler appended under it, and every earlier entry under another name. */
  lemma {:induction false} LastWriterWins(file: seq<Handler>, hs: seq<Handler>)
    requires Strict(HandlerKey, file)
    ensures Strict(HandlerKey, Appended(file, hs))
    ensures forall x :: x in Appended(file, hs) <==> LastOf(hs, x) || (x in file && !Named(hs, x.fqname))
    decreases |hs|
  {
    if hs != [] {
      var before, h := hs[..|hs| - 1], hs[|hs| - 1];
      LastWriterWins(file, before);
      UpsertReplaces(Appended(file, before), h);
      assert hs == before + [h];
      forall x ensures x in Appended(file, hs) <==> LastOf(hs, x) || (x in file && !Named(hs, x.fqname)) {
        LastStep(before, h, x);
      }
    }
  }

  lemma DistinctLast(hs: seq<Handler>, x: Handler)
    requires Distinct(HandlerKey, hs)
    ensures LastOf(hs, x) <==> x in hs
  {
    if x in hs {
      var i :| 0 <= i < |hs| && hs[i] == x;
      forall j | i < j < |hs| ensures hs[j].fqname != x.fqname {
        assert HandlerKey(hs[i]) != HandlerKey(hs[j]);
      }
    }
  }

  lemma NamedIn(hs: seq<Handler>, others: seq<Handler>, fqname: string)
    requires forall x :: x in hs ==> x in others
    requires Named(hs, fqname)
    ensures Named(others, fqname)
  {
    var i :| 0 <= i < |hs| && hs[i].fqname == fqname;
    assert hs[i] in hs;
    var j :| 0 <= j < |others| && others[j] == hs[i];
  }

  /** Any two interleavings of appends of distinct handlers leave the same file. */
  lemma {:induction false} InterleavingsAgree(file: seq<Handler>, hs: seq<Handler>, others: seq<Handler>)
    requires Strict(HandlerKey, file) && Distinct(HandlerKey, hs) && multiset(hs) == multiset(others)
    ensures Appended(file, hs) == Appended(file, others)
  {
    LastWriterWins(file, hs);
    LastWriterWins(file, others);
    PermutedDistinct(HandlerKey, hs, others);
    SameMembers(hs, others);
    forall x ensures x in Appended(file, hs) <==> x in Appended(file, others) {
      DistinctLast(hs, x);
      DistinctLast(others, x);
      if Named(hs, x.fqname) { NamedIn(hs, others, x.fqname); }
      if Named(others, x.fqname) { NamedIn(others, hs, x.fqname); }
    }
    StrictIsUnique(HandlerKey, Appended(file, hs), Appended(file, others));
  }
}
