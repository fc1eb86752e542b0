/** The background sync of stored names: one transaction per cycle rewrites the name columns and
    advances the cursor. Over whole runs with outages, failed applies, crashes and re-fetched
    windows, nothing is skipped and the columns come out as if each rename were applied once. */
module NameSync {
  import opened Wrappers
  import opened Renames

  datatype Kind = User | Group

  type Column = string

  datatype Target = Target(column: Column, kind: Kind)

  /** Times are nanoseconds since 1970, as RFC 3339 texts carry them. */
  const SECOND := 1_000_000_000
  const OVERLAP := 5 * 60 * SECOND
  /** Midnight of year 0, the first instant RFC 3339 can write. */
  const YEAR_ZERO := -62_167_219_200 * SECOND

  datatype Cursor = Rfc3339(at: int) | Other(text: string)

  /** `overlapped`: nothing when the cursor does not parse or the result cannot be written. */
  function Overlapped(cursor: Cursor): Option<Cursor> {
    match cursor
    case Rfc3339(at) => if at - OVERLAP < YEAR_ZERO then None else Some(Rfc3339(at - OVERLAP))
    case Other(_) => None
  }

  /** The `since` a cycle sends: moved back when possible, as stored when not, absent at first. */
  function Since(cursor: Option<Cursor>): (since: Option<Cursor>)
    ensures since.None? <==> cursor.None?
    ensures cursor.Some? && since != cursor ==>
              cursor.value.Rfc3339? && since == Some(Rfc3339(cursor.value.at - 5 * 60 * SECOND))
  {
    match cursor
    case None => None
    case Some(c) => if Overlapped(c).Some? then Overlapped(c) else Some(c)
  }

  datatype NameDeltas = NameDeltas(now: Cursor, users: seq<Rename>, groups: seq<Rename>) {
    predicate IsEmpty() { users == [] && groups == [] }

    function Of(kind: Kind): seq<Rename> {
      match kind
      case User => users
      case Group => groups
    }
  }

  // ----- rewriting columns -----------------------------------------------------------------

  type Columns = map<Column, seq<string>>

  function MapAll(rs: seq<Rename>, cells: seq<string>): seq<string> {
    seq(|cells|, i requires 0 <= i < |cells| => ApplyAll(rs, cells[i]))
  }

  function Occurrences(cells: seq<string>, name: string): nat {
    if cells == [] then 0 else (if cells[|cells| - 1] == name then 1 else 0) + Occurrences(cells[..|cells| - 1], name)
  }

  /** The rows a list of `UPDATE`s reports changed, counting a row once per `UPDATE` matching it. */
  function RowsChanged(rs: seq<Rename>, cells: seq<string>): nat
    decreases |rs|
  {
    if rs == [] then 0 else Occurrences(cells, rs[0].former) + RowsChanged(rs[1..], MapAll([rs[0]], cells))
  }

  lemma MapAllStep(rs: seq<Rename>, cells: seq<string>)
    requires rs != []
    ensures MapAll(rs[1..], MapAll([rs[0]], cells)) == MapAll(rs, cells)
  {
    forall i | 0 <= i < |cells| ensures ApplyAll(rs[1..], ApplyAll([rs[0]], cells[i])) == ApplyAll(rs, cells[i]) {
      assert [rs[0]] + rs[1..] == rs;
      ApplyConcat([rs[0]], rs[1..], cells[i]);
    }
  }

  /** `apply_column_renames` on the columns: nothing when an `UPDATE` names a missing column. */
  function ApplyTargets(columns: Columns, targets: seq<Target>, deltas: NameDeltas): Option<Columns>
    decreases |targets|
  {
    if targets == [] then Some(columns)
    else
      var t := targets[0];
      if deltas.Of(t.kind) == [] then ApplyTargets(columns, targets[1..], deltas)
      else if t.column !in columns then None
      else ApplyTargets(columns[t.column := MapAll(deltas.Of(t.kind), columns[t.column])], targets[1..], deltas)
  }

  function TotalChanged(columns: Columns, targets: seq<Target>, deltas: NameDeltas): nat
    decreases |targets|
  {
    if targets == [] then 0
    else
      var t := targets[0];
      if deltas.Of(t.kind) == [] || t.column !in columns then TotalChanged(columns, targets[1..], deltas)
      else RowsChanged(deltas.Of(t.kind), columns[t.column])
           + TotalChanged(columns[t.column := MapAll(deltas.Of(t.kind), columns[t.column])], targets[1..], deltas)
  }

  lemma {:induction false} OccurrencesCount(cells: seq<string>, name: string)
    ensures Occurrences(cells, name) == multiset(cells)[name]
  {
    if cells != [] {
      OccurrencesCount(cells[..|cells| - 1], name);
      assert cells == cells[..|cells| - 1] + [cells[|cells| - 1]];
    }
  }

  /** How many of the renames match a name on its way through them. */
  function Hits(rs: seq<Rename>, name: string): nat
    decreases |rs|
  {
    if rs == [] then 0
    else if rs[0].former == name then 1 + Hits(rs[1..], rs[0].current) else Hits(rs[1..], name)
  }

  function AllHits(rs: seq<Rename>, cells: seq<string>): nat {
    if cells == [] then 0 else AllHits(rs, cells[..|cells| - 1]) + Hits(rs, cells[|cells| - 1])
  }

  lemma {:induction false} NoHits(cells: seq<string>)
    ensures AllHits([], cells) == 0
  {
    if cells != [] { NoHits(cells[..|cells| - 1]); }
  }

  lemma {:induction false} FirstHits(rs: seq<Rename>, cells: seq<string>)
    requires rs != []
    ensures AllHits(rs, cells) == Occurrences(cells, rs[0].former) + AllHits(rs[1..], MapAll([rs[0]], cells))
  {
    if cells != [] {
      var before, last := cells[..|cells| - 1], cells[|cells| - 1];
      FirstHits(rs, before);
      var mapped := MapAll([rs[0]], cells);
      assert mapped[..|mapped| - 1] == MapAll([rs[0]], before);
      assert mapped[|mapped| - 1] == ApplyAll([rs[0]], last) == One(rs[0], last);
    }
  }

  /** Counted `UPDATE` by `UPDATE` or row by row, the matches are as many. */
  lemma {:induction false} RowsAreCounted(rs: seq<Rename>, cells: seq<string>)
    ensures RowsChanged(rs, cells) == AllHits(rs, cells)
    decreases |rs|
  {
    if rs == [] {
      NoHits(cells);
    } else {
      RowsAreCounted(rs[1..], MapAll([rs[0]], cells));
      FirstHits(rs, cells);
    }
  }

  function Listed(deltas: NameDeltas, kind: Kind): seq<Rename> {
    if kind.User? then deltas.users else deltas.groups
  }

  /** The total is the sum over the targets, each counted on what the ones before it left. */
  lemma {:induction false} TotalIsSummed(columns: Columns, targets: seq<Target>, more: seq<Target>, deltas: NameDeltas)
    requires ApplyTargets(columns, targets, deltas).Some?
    ensures TotalChanged(columns, targets + more, deltas) ==
            TotalChanged(columns, targets, deltas)
            + TotalChanged(ApplyTargets(columns, targets, deltas).value, more, deltas)
    ensures forall t :: TotalChanged(columns, [t], deltas) ==
              if t.column in columns then AllHits(Listed(deltas, t.kind), columns[t.column]) else 0
    decreases |targets|
  {
    forall t ensures TotalChanged(columns, [t], deltas) ==
      if t.column in columns then AllHits(Listed(deltas, t.kind), columns[t.column]) else 0
    {
      assert [t][1..] == [];
      if t.column in columns {
        RowsAreCounted(Listed(deltas, t.kind), columns[t.column]);
        NoHits(columns[t.column]);
      }
    }
    if targets == [] {
      assert targets + more == more;
    } else {
      var t, rest := targets[0], targets[1..];
      assert (targets + more)[1..] == rest + more;
      if deltas.Of(t.kind) == [] {
        TotalIsSummed(columns, rest, more, deltas);
      } else {
        TotalIsSummed(columns[t.column := MapAll(deltas.Of(t.kind), columns[t.column])], rest, more, deltas);
      }
    }
  }

  /** Applying fails exactly when renames meet a missing column. */
  lemma {:induction false} ApplyFailsExactly(columns: Columns, targets: seq<Target>, deltas: NameDeltas)
    ensures ApplyTargets(columns, targets, deltas).None? <==>
            exists t :: t in targets && Listed(deltas, t.kind) != [] && t.column !in columns
    decreases |targets|
  {
    if targets != [] {
      var t, rest := targets[0], targets[1..];
      assert targets == [t] + rest;
      if deltas.Of(t.kind) == [] {
        ApplyFailsExactly(columns, rest, deltas);
      } else if t.column in columns {
        ApplyFailsExactly(columns[t.column := MapAll(deltas.Of(t.kind), columns[t.column])], rest, deltas);
      } else {
        assert t in targets;
      }
    }
  }

  /** The renames of every target of one column, in target order. */
  function RenamesFor(column: Column, targets: seq<Target>, deltas: NameDeltas): seq<Rename>
    decreases |targets|
  {
    if targets == [] then []
    else
      (if targets[0].column == column then deltas.Of(targets[0].kind) else []) +
      RenamesFor(column, targets[1..], deltas)
  }

  lemma MapAllConcat(a: seq<Rename>, b: seq<Rename>, cells: seq<string>)
    ensures MapAll(b, MapAll(a, cells)) == MapAll(a + b, cells)
  {
    forall i | 0 <= i < |cells| { ApplyConcat(a, b, cells[i]); }
  }

  lemma {:induction false} TargetsPerColumn(columns: Columns, targets: seq<Target>, deltas: NameDeltas)
    requires ApplyTargets(columns, targets, deltas).Some?
    ensures var after := ApplyTargets(columns, targets, deltas).value;
            && after.Keys == columns.Keys
            && forall c | c in columns :: after[c] == MapAll(RenamesFor(c, targets, deltas), columns[c])
    decreases |targets|
  {
    if targets == [] {
      forall c | c in columns ensures MapAll([], columns[c]) == columns[c] {}
    } else {
      var t := targets[0];
      if deltas.Of(t.kind) == [] {
        TargetsPerColumn(columns, targets[1..], deltas);
        assert forall c :: RenamesFor(c, targets, deltas) == RenamesFor(c, targets[1..], deltas);
      } else {
        var columns' := columns[t.column := MapAll(deltas.Of(t.kind), columns[t.column])];
        TargetsPerColumn(columns', targets[1..], deltas);
        forall c | c in columns
          ensures MapAll(RenamesFor(c, targets[1..], deltas), columns'[c]) ==
                  MapAll(RenamesFor(c, targets, deltas), columns[c])
        {
          MapAllConcat(deltas.Of(t.kind), RenamesFor(c, targets[1..], deltas), columns[t.column]);
          assert [] + RenamesFor(c, targets[1..], deltas) == RenamesFor(c, targets[1..], deltas);
        }
      }
    }
  }

  /** How a cycle can go: the feed does not answer, the apply fails (as it must on a missing
      column), the process dies before the commit, or all is well. */
  datatype Fate = FeedDown | ApplyFails | Dies | Completes

  datatype Stored = Stored(columns: Columns, cursor: Option<Cursor>)

  predicate Commits(s: Stored, targets: seq<Target>, deltas: NameDeltas, fate: Fate) {
    fate.Completes? && (deltas.IsEmpty() || ApplyTargets(s.columns, targets, deltas).Some?)
  }

  /** `commit_cycle`: rewrites and cursor together, or neither. */
  function Commit(s: Stored, targets: seq<Target>, deltas: NameDeltas, fate: Fate): Stored {
    var after := if deltas.IsEmpty() then Some(s.columns) else ApplyTargets(s.columns, targets, deltas);
    if fate.Completes? && after.Some? then Stored(after.value, Some(deltas.now)) else s
  }

  /** The service's database, with the tables it keeps names in and the one cursor row. */
  class NameStore {
    var columns: Columns
    var cursor: Option<Cursor>

    function Contents(): Stored
      reads this
    {
      Stored(columns, cursor)
    }

    constructor (columns: Columns)
      ensures Contents() == Stored(columns, None)
    {
      this.columns := columns;
      cursor := None;
    }

    method Update(column: Column, rename: Rename) returns (rows: nat)
      requires column in columns
      modifies this`columns
      ensures columns == old(columns)[column := MapAll([rename], old(columns)[column])]
      ensures |columns[column]| == |old(columns)[column]|
      ensures forall k | 0 <= k < |columns[column]| ::
                columns[column][k] == if old(columns)[column][k] == rename.former then rename.current
                                      else old(columns)[column][k]
      ensures rows == Occurrences(old(columns)[column], rename.former)
      ensures rows == multiset(old(columns)[column])[rename.former]
    {
      var cells, next, i := columns[column], [], 0;
      rows := 0;
      while i < |cells|
        invariant i <= |cells| && |next| == i
        invariant forall k | 0 <= k < i :: next[k] == One(rename, cells[k])
        invariant rows == Occurrences(cells[..i], rename.former)
      {
        assert cells[..i + 1][..i] == cells[..i];
        if cells[i] == rename.former {
          rows := rows + 1;
          next := next + [rename.current];
        } else {
          next := next + [cells[i]];
        }
        i := i + 1;
      }
      assert cells[..i] == cells;
      assert forall k | 0 <= k < |cells| :: ApplyAll([rename], cells[k]) == One(rename, cells[k]);
      assert next == MapAll([rename], cells);
      OccurrencesCount(cells, rename.former);
      columns := columns[column := next];
    }

    /** The inner loop: one column rewritten by one rename after the other. */
    method ApplyRenames(column: Column, renames: seq<Rename>) returns (rows: nat)
      requires column in columns
      modifies this`columns
      ensures columns == old(columns)[column := MapAll(renames, old(columns)[column])]
      ensures rows == RowsChanged(renames, old(columns)[column])
      ensures rows == AllHits(renames, old(columns)[column])
    {
      rows := 0;
      var j := 0;
      assert renames[0..] == renames;
      while j < |renames|
        invariant j <= |renames|
        invariant column in columns && columns == old(columns)[column := columns[column]]
        invariant MapAll(renames[j..], columns[column]) == MapAll(renames, old(columns)[column])
        invariant rows + RowsChanged(renames[j..], columns[column]) == RowsChanged(renames, old(columns)[column])
      {
        assert renames[j..][0] == renames[j] && renames[j..][1..] == renames[j + 1..];
        MapAllStep(renames[j..], columns[column]);
        var changed := Update(column, renames[j]);
        rows := rows + changed;
        j := j + 1;
      }
      assert renames[j..] == [];
      assert MapAll([], columns[column]) == columns[column];
      RowsAreCounted(renames, old(columns)[column]);
    }

    /** Every rename of the target's kind, target by target. The count is what the `UPDATE`s
        report; on a missing column it stops with what it had rewritten so far. */
    method ApplyColumnRenames(targets: seq<Target>, deltas: NameDeltas) returns (changed: Option<nat>)
      modifies this`columns
      ensures changed.Some? <==> ApplyTargets(old(columns), targets, deltas).Some?
      ensures changed.Some? ==> columns == ApplyTargets(old(columns), targets, deltas).value
      ensures changed.Some? ==> changed.value == TotalChanged(old(columns), targets, deltas)
    {
      var total, i := 0, 0;
      while i < |targets|
        invariant i <= |targets|
        invariant ApplyTargets(columns, targets[i..], deltas) == ApplyTargets(old(columns), targets, deltas)
        invariant total + TotalChanged(columns, targets[i..], deltas) == TotalChanged(old(columns), targets, deltas)
      {
        var target := targets[i];
        var renames := deltas.Of(target.kind);
        assert targets[i..][0] == target && targets[i..][1..] == targets[i + 1..];
        if renames != [] {
          if target.column !in columns {
            return None;
          }
          var rows := ApplyRenames(target.column, renames);
          total := total + rows;
        }
        i := i + 1;
      }
      return Some(total);
    }

    /** The transaction: on any failure the columns go back to where they were. */
    method CommitCycle(targets: seq<Target>, deltas: NameDeltas, fate: Fate) returns (committed: bool)
      modifies this
      ensures Contents() == Commit(old(Contents()), targets, deltas, fate)
      ensures !committed ==> Contents() == old(Contents())
      ensures committed ==> cursor == Some(deltas.now)
    {
      var begun := columns;
      committed := true;
      if !deltas.IsEmpty() {
        var changed := ApplyColumnRenames(targets, deltas);
        committed := changed.Some? && !fate.ApplyFails?;
      }
      if committed && fate.Completes? {
        cursor := Some(deltas.now);
      } else {
        committed := false;
        columns := begun;
      }
    }

    /** A whole cycle against a feed that answers, or does not, at `now`. */
    method RunCycle(server: Server, targets: seq<Target>, now: int, fate: Fate) returns (committed: bool)
      modifies this
      ensures forall began, windows ::
                Contents() == Happens(server, targets, World(old(Contents()), began, windows), Cycle(now, fate)).stored
      ensures !committed ==> Contents() == old(Contents())
    {
      committed := false;
      if !fate.FeedDown? {
        committed := CommitCycle(targets, Answer(server, SinceTime(cursor), now), fate);
      }
    }
  }

  // ----- the feed and whole runs -----------------------------------------------------------

  /** A rename as the feed's server records it: stamped first, visible to readers a little later. */
  datatype Record = Record(stamp: int, visible: int, kind: Kind, rename: Rename)

  /** The server's log in stamp order. `closed` says whether a window includes its very first
      instant; the repository's client does not care which. */
  datatype Server = Server(log: seq<Record>, closed: bool)

  predicate InWindow(server: Server, r: Record, since: Option<int>, now: int) {
    r.visible <= now && (since.None? || r.stamp > since.value || (server.closed && r.stamp == since.value))
  }

  function Window(server: Server, log: seq<Record>, since: Option<int>, now: int, kind: Kind): seq<Rename>
    decreases |log|
  {
    if log == [] then []
    else
      (if log[0].kind == kind && InWindow(server, log[0], since, now) then [log[0].rename] else [])
      + Window(server, log[1..], since, now, kind)
  }

  /** The feed's answer to one request. */
  function Answer(server: Server, since: Option<int>, now: int): NameDeltas {
    NameDeltas(Rfc3339(now), Window(server, server.log, since, now, User),
        Window(server, server.log, since, now, Group))
  }

  function SinceTime(cursor: Option<Cursor>): Option<int> {
    match Since(cursor)
    case Some(Rfc3339(at)) => Some(at)
    case _ => None
  }

  /** One thing that happens: a cycle whose request the server answers at `now`, or a new row. */
  datatype Happening = Cycle(now: int, fate: Fate) | Insert(column: Column, name: string)

  /** `began` keeps what each row was inserted with; it is not stored anywhere. `windows` is the
      list of committed windows so far. */
  datatype World = World(stored: Stored, began: Columns, windows: seq<(Option<int>, int)>)

  function Happens(server: Server, targets: seq<Target>, w: World, e: Happening): World {
    match e
    case Cycle(now, fate) =>
      var since := SinceTime(w.stored.cursor);
      var deltas := Answer(server, since, now);
      if fate.FeedDown? then w
      else
        w.(stored := Commit(w.stored, targets, deltas, fate),
           windows := if Commits(w.stored, targets, deltas, fate) then w.windows + [(since, now)] else w.windows)
    case Insert(column, name) =>
      if column in w.stored.columns && column in w.began then
        w.(stored := w.stored.(columns := w.stored.columns[column := w.stored.columns[column] + [name]]),
           began := w.began[column := w.began[column] + [name]])
      else w
  }

  function Run(server: Server, targets: seq<Target>, w: World, es: seq<Happening>): World
    decreases |es|
  {
    if es == [] then w else Run(server, targets, Happens(server, targets, w, es[0]), es[1..])
  }

  function Renamed(server: Server, now: Option<int>, kind: Kind): seq<Rename> {
    if now.None? then [] else Window(server, server.log, None, now.value, kind)
  }

  function CursorTime(w: World): Option<int> {
    if w.stored.cursor.Some? && w.stored.cursor.value.Rfc3339? then Some(w.stored.cursor.value.at) else None
  }

  /** The server's clock does not run backwards past the stored cursor, and a new row carries a
      name that nothing delivered so far has renamed away. */
  predicate Plausible(server: Server, targets: seq<Target>, w: World, e: Happening) {
    match e
    case Cycle(now, _) =>
      now >= YEAR_ZERO + OVERLAP && (CursorTime(w).Some? ==> CursorTime(w).value <= now)
    case Insert(column, name) =>
      forall t | t in targets && t.column == column ::
        forall r | r in Renamed(server, CursorTime(w), t.kind) :: r.former != name
  }

  predicate PlausibleRun(server: Server, targets: seq<Target>, w: World, es: seq<Happening>)
    decreases |es|
  {
    es == [] ||
      (&& Plausible(server, targets, w, es[0])
       && PlausibleRun(server, targets, Happens(server, targets, w, es[0]), es[1..]))
  }

  /** Stamp order, and no record becomes visible later than `lag` after its stamp. */
  ghost predicate Ordered(server: Server, lag: int) {
    && (forall i, j | 0 <= i < j < |server.log| :: server.log[i].stamp <= server.log[j].stamp)
    && (forall r | r in server.log :: r.visible <= r.stamp + lag)
  }

  ghost predicate NamesRetire(server: Server, kind: Kind) {
    NeverGivenOutAgain(AllOf(server.log, kind))
  }

  function AllOf(log: seq<Record>, kind: Kind): seq<Rename>
    decreases |log|
  {
    if log == [] then [] else (if log[0].kind == kind then [log[0].rename] else []) + AllOf(log[1..], kind)
  }

  // ----- windows -----------------------------------------------------------------------------

  lemma {:induction false} WindowMembers(server: Server, log: seq<Record>, since: Option<int>, now: int, kind: Kind)
    ensures forall r | r in log && r.kind == kind && InWindow(server, r, since, now) ::
            r.rename in Window(server, log, since, now, kind)
    decreases |log|
  {
    if log != [] {
      WindowMembers(server, log[1..], since, now, kind);
      forall r | r in log && r.kind == kind && InWindow(server, r, since, now)
        ensures r.rename in Window(server, log, since, now, kind)
      {
        assert r == log[0] || r in log[1..];
      }
    }
  }

  lemma {:induction false} SubsequenceTail(part: seq<Rename>, whole: seq<Rename>, r: Rename)
    requires Subsequence(part, whole)
    ensures Subsequence(part, [r] + whole) && Subsequence([r] + part, [r] + whole)
  {
    assert ([r] + whole)[1..] == whole && ([r] + part)[1..] == part;
  }

  /** Later readers of the same stretch see the same records and perhaps more between them. */
  lemma {:induction false} WindowsNest(server: Server, log: seq<Record>, since: Option<int>, since': Option<int>,
                                       now: int, now': int, kind: Kind)
    requires forall r | r in log && InWindow(server, r, since, now) :: InWindow(server, r, since', now')
    ensures Subsequence(Window(server, log, since, now, kind), Window(server, log, since', now', kind))
    ensures Subsequence(Window(server, log, since, now, kind), AllOf(log, kind))
    decreases |log|
  {
    if log != [] {
      var rest := log[1..];
      WindowsNest(server, rest, since, since', now, now', kind);
      assert log[0] in log;
      var here := log[0].kind == kind && InWindow(server, log[0], since, now);
      var there := log[0].kind == kind && InWindow(server, log[0], since', now');
      var part := Window(server, rest, since, now, kind);
      MaybeFirst(part, Window(server, rest, since', now', kind), log[0].rename, here, there);
      MaybeFirst(part, AllOf(rest, kind), log[0].rename, here, log[0].kind == kind);
    }
  }

  lemma MaybeFirst(part: seq<Rename>, whole: seq<Rename>, r: Rename, here: bool, there: bool)
    requires Subsequence(part, whole) && (here ==> there)
    ensures Subsequence((if here then [r] else []) + part, (if there then [r] else []) + whole)
  {
    SubsequenceTail(part, whole, r);
    assert [] + part == part && [] + whole == whole;
  }

  lemma {:induction false} WindowConcat(server: Server, a: seq<Record>, b: seq<Record>, since: Option<int>, now: int,
      kind: Kind)
    ensures Window(server, a + b, since, now, kind) ==
            Window(server, a, since, now, kind) + Window(server, b, since, now, kind)
    decreases |a|
  {
    if a == [] {
      assert a + b == b;
    } else {
      assert (a + b)[1..] == a[1..] + b;
      WindowConcat(server, a[1..], b, since, now, kind);
    }
  }

  lemma {:induction false} WindowSame(server: Server, log: seq<Record>, since: Option<int>, since': Option<int>,
      now: int, now': int, kind: Kind)
    requires forall r | r in log :: InWindow(server, r, since, now) <==> InWindow(server, r, since', now')
    ensures Window(server, log, since, now, kind) == Window(server, log, since', now', kind)
    decreases |log|
  {
    if log != [] {
      assert log[0] in log;
      WindowSame(server, log[1..], since, since', now, now', kind);
    }
  }

  lemma {:induction false} WindowNothing(server: Server, log: seq<Record>, since: Option<int>, now: int, kind: Kind)
    requires forall r | r in log :: !InWindow(server, r, since, now)
    ensures Window(server, log, since, now, kind) == []
    decreases |log|
  {
    if log != [] {
      assert log[0] in log;
      WindowNothing(server, log[1..], since, now, kind);
    }
  }

  lemma {:induction false} SubsequenceRetires(part: seq<Rename>, whole: seq<Rename>)
    requires Subsequence(part, whole) && NeverGivenOutAgain(whole)
    ensures NeverGivenOutAgain(part)
    decreases |whole|
  {
    if whole != [] {
      assert NeverGivenOutAgain(whole[1..]);
      if Subsequence(part, whole[1..]) {
        SubsequenceRetires(part, whole[1..]);
      } else {
        SubsequenceRetires(part[1..], whole[1..]);
        SubsequenceMembers(part[1..], whole[1..]);
        forall i, j | 0 <= i < j < |part|
          ensures part[j].current != part[i].former && part[j].former != part[i].former
        {
          assert part[1..][j - 1] == part[j];
          if i == 0 {
            assert part[j] in whole[1..];
          } else {
            assert part[1..][i - 1] == part[i];
          }
        }
      }
    }
  }

  /** Where in a stamp-ordered log a window begins. */
  lemma {:induction false} WindowStart(server: Server, log: seq<Record>, since: int) returns (k: nat)
    requires forall i, j | 0 <= i < j < |log| :: log[i].stamp <= log[j].stamp
    ensures k <= |log|
    ensures forall i | 0 <= i < k :: log[i].stamp < since || (!server.closed && log[i].stamp == since)
    ensures forall i | k <= i < |log| :: log[i].stamp > since || (server.closed && log[i].stamp == since)
    decreases |log|
  {
    if log == [] || log[0].stamp > since || (server.closed && log[0].stamp == since) {
      k := 0;
    } else {
      k := WindowStart(server, log[1..], since);
      k := k + 1;
      assert forall i | 1 <= i < |log| :: log[i] == log[1..][i - 1];
    }
  }

  /** What everything visible has in common before and after: the records too old for the window,
      all of them delivered already, and then the window's own stretch. */
  lemma WindowsSplit(server: Server, before: int, now: int, kind: Kind)
      returns (had: seq<Rename>, part: seq<Rename>, whole: seq<Rename>)
    requires Ordered(server, OVERLAP) && before <= now
    ensures Window(server, server.log, None, before, kind) == had + part
    ensures Window(server, server.log, None, now, kind) == had + whole
    ensures Window(server, server.log, Some(before - OVERLAP), now, kind) == whole
    ensures Subsequence(part, whole)
  {
    var log, since := server.log, before - OVERLAP;
    var k := WindowStart(server, log, since);
    var a, b := log[..k], log[k..];
    assert log == a + b;
    forall r | r in a ensures r.visible <= before && !InWindow(server, r, Some(since), now) {
      assert r in log;
    }
    WindowConcat(server, a, b, None, before, kind);
    WindowConcat(server, a, b, None, now, kind);
    WindowConcat(server, a, b, Some(since), now, kind);
    WindowNothing(server, a, Some(since), now, kind);
    WindowSame(server, b, Some(since), None, now, now, kind);
    WindowSame(server, a, None, None, before, now, kind);
    WindowsNest(server, b, None, None, before, now, kind);
    had := Window(server, a, None, now, kind);
    part, whole := Window(server, b, None, before, kind), Window(server, b, None, now, kind);
    assert [] + whole == whole;
  }

  lemma RetiresTail(a: seq<Rename>, b: seq<Rename>)
    requires NeverGivenOutAgain(a + b)
    ensures NeverGivenOutAgain(b)
  {
    forall i, j | 0 <= i < j < |b| ensures b[j].current != b[i].former && b[j].former != b[i].former {
      assert (a + b)[|a| + i] == b[i] && (a + b)[|a| + j] == b[j];
    }
  }

  /** One committed window on top of everything delivered by `before`: the effect is that of
      everything visible by `now`, applied once and in order. */
  lemma DeliveredOnce(server: Server, before: Option<int>, now: int, kind: Kind, name: string)
    requires Ordered(server, OVERLAP) && NamesRetire(server, kind)
    requires before.Some? ==> before.value <= now
    ensures var since := if before.Some? then Some(before.value - OVERLAP) else None;
            ApplyAll(Window(server, server.log, since, now, kind), ApplyAll(Renamed(server, before, kind), name))
            == ApplyAll(Renamed(server, Some(now), kind), name)
  {
    if before.Some? {
      var had, part, whole := WindowsSplit(server, before.value, now, kind);
      WindowsNest(server, server.log, None, None, now, now, kind);
      SubsequenceRetires(had + whole, AllOf(server.log, kind));
      RetiresTail(had, whole);
      ApplyConcat(had, part, name);
      ApplyConcat(had, whole, name);
      RedeliveryHeals(part, whole, ApplyAll(had, name));
    }
  }

  /** Asked for again from the beginning, as when the cursor is lost, the feed leaves everything it
      had delivered where it is. */
  lemma DeliveredTwice(server: Server, now: int, kind: Kind, name: string)
    requires NamesRetire(server, kind)
    ensures var all := Renamed(server, Some(now), kind);
            ApplyAll(all, ApplyAll(all, name)) == ApplyAll(all, name)
  {
    var all := Renamed(server, Some(now), kind);
    WindowsNest(server, server.log, None, None, now, now, kind);
    SubsequenceRetires(all, AllOf(server.log, kind));
    SubsequenceSelf(all);
    RedeliveryHeals(all, all, name);
  }

  lemma {:induction false} SubsequenceSelf(rs: seq<Rename>)
    ensures Subsequence(rs, rs)
    decreases |rs|
  {
    if rs != [] { SubsequenceSelf(rs[1..]); }
  }

  // ----- exactly once ------------------------------------------------------------------------

  /** The column has targets, and all of them are of this kind. */
  ghost predicate HasKind(targets: seq<Target>, column: Column, kind: Kind) {
    && (exists t :: t in targets && t.column == column)
    && (forall t | t in targets && t.column == column :: t.kind == kind)
  }

  /** A column listed as several targets gets its window several times over: no harm. */
  lemma {:induction false} ListedTwice(server: Server, targets: seq<Target>, column: Column, kind: Kind,
      since: Option<int>, now: int, name: string)
    requires NamesRetire(server, kind)
    requires forall t | t in targets && t.column == column :: t.kind == kind
    ensures var window := Window(server, server.log, since, now, kind);
            var all := RenamesFor(column, targets, Answer(server, since, now));
            && ApplyAll(all, ApplyAll(window, name)) == ApplyAll(window, name)
            && ((exists t :: t in targets && t.column == column) ==> ApplyAll(all, name) == ApplyAll(window, name))
    decreases |targets|
  {
    if targets != [] {
      var window, deltas := Window(server, server.log, since, now, kind), Answer(server, since, now);
      var rest := RenamesFor(column, targets[1..], deltas);
      ListedTwice(server, targets[1..], column, kind, since, now, name);
      assert targets[0] in targets;
      if targets[0].column == column {
        assert deltas.Of(targets[0].kind) == window;
        WindowsNest(server, server.log, since, since, now, now, kind);
        SubsequenceRetires(window, AllOf(server.log, kind));
        SubsequenceSelf(window);
        RedeliveryHeals(window, window, name);
        ApplyConcat(window, rest, name);
        ApplyConcat(window, rest, ApplyAll(window, name));
      } else {
        assert [] + rest == rest;
        assert forall t | t in targets && t.column == column :: t in targets[1..];
      }
    }
  }

  lemma {:induction false} NothingToApply(columns: Columns, targets: seq<Target>, deltas: NameDeltas)
    requires deltas.IsEmpty()
    ensures ApplyTargets(columns, targets, deltas) == Some(columns)
    decreases |targets|
  {
    if targets != [] { NothingToApply(columns, targets[1..], deltas); }
  }

  ghost predicate CursorOk(w: World) {
    w.stored.cursor.Some? ==> w.stored.cursor.value.Rfc3339? && w.stored.cursor.value.at >= YEAR_ZERO + OVERLAP
  }

  /** The column reads as if all that was delivered so far had been applied once to its rows. */
  ghost predicate AppliedOnce(server: Server, w: World, column: Column, kind: Kind) {
    column in w.stored.columns ==>
      column in w.began && w.stored.columns[column] == MapAll(Renamed(server, CursorTime(w), kind), w.began[column])
  }

  /** One row through one committed cycle. */
  lemma CellAppliesOnce(server: Server, targets: seq<Target>, cursor: Option<int>, now: int, column: Column,
      kind: Kind, began: string)
    requires Ordered(server, OVERLAP) && NamesRetire(server, kind) && HasKind(targets, column, kind)
    requires cursor.Some? ==> cursor.value <= now
    ensures var since := if cursor.None? then None else Some(cursor.value - OVERLAP);
            ApplyAll(RenamesFor(column, targets, Answer(server, since, now)),
                ApplyAll(Renamed(server, cursor, kind), began))
            == ApplyAll(Renamed(server, Some(now), kind), began)
  {
    var since := if cursor.None? then None else Some(cursor.value - OVERLAP);
    ListedTwice(server, targets, column, kind, since, now, ApplyAll(Renamed(server, cursor, kind), began));
    DeliveredOnce(server, cursor, now, kind, began);
  }

  lemma ColumnAppliesOnce(server: Server, targets: seq<Target>, cursor: Option<int>, now: int, column: Column,
      kind: Kind, began: seq<string>)
    requires Ordered(server, OVERLAP) && NamesRetire(server, kind) && HasKind(targets, column, kind)
    requires cursor.Some? ==> cursor.value <= now
    ensures var since := if cursor.None? then None else Some(cursor.value - OVERLAP);
            MapAll(RenamesFor(column, targets, Answer(server, since, now)),
                MapAll(Renamed(server, cursor, kind), began))
            == MapAll(Renamed(server, Some(now), kind), began)
  {
    forall i | 0 <= i < |began| { CellAppliesOnce(server, targets, cursor, now, column, kind, began[i]); }
  }

  /** An empty answer is applied like any other: it changes nothing. */
  lemma CommitApplies(s: Stored, targets: seq<Target>, deltas: NameDeltas, fate: Fate)
    ensures var after := ApplyTargets(s.columns, targets, deltas);
      Commit(s, targets, deltas, fate) ==
      if fate.Completes? && after.Some? then Stored(after.value, Some(deltas.now)) else s
  {
    if deltas.IsEmpty() { NothingToApply(s.columns, targets, deltas); }
  }

  /** One column through one commit: rewritten by its own renames, or as it was with its cursor. */
  lemma CommitsColumn(s: Stored, targets: seq<Target>, deltas: NameDeltas, fate: Fate, column: Column)
    requires column in s.columns
    ensures var s' := Commit(s, targets, deltas, fate);
      && column in s'.columns
      && (s' == s || (s'.cursor == Some(deltas.now) &&
                      s'.columns[column] == MapAll(RenamesFor(column, targets, deltas), s.columns[column])))
  {
    CommitApplies(s, targets, deltas, fate);
    if ApplyTargets(s.columns, targets, deltas).Some? { TargetsPerColumn(s.columns, targets, deltas); }
  }

  lemma CommitKeepsColumns(s: Stored, targets: seq<Target>, deltas: NameDeltas, fate: Fate)
    ensures Commit(s, targets, deltas, fate).columns.Keys == s.columns.Keys
  {
    CommitApplies(s, targets, deltas, fate);
    if ApplyTargets(s.columns, targets, deltas).Some? { TargetsPerColumn(s.columns, targets, deltas); }
  }

  lemma SinceOverlaps(w: World)
    requires CursorOk(w)
    ensures SinceTime(w.stored.cursor) == if CursorTime(w).None? then None else Some(CursorTime(w).value - OVERLAP)
  {
  }

  lemma CycleCommits(server: Server, targets: seq<Target>, w: World, now: int, fate: Fate)
    ensures var w' := Happens(server, targets, w, Cycle(now, fate));
      && w'.stored == Commit(w.stored, targets, Answer(server, SinceTime(w.stored.cursor), now), fate)
      && w'.began == w.began
  {
  }

  lemma CycleAppliesOnce(server: Server, targets: seq<Target>, w: World, now: int, fate: Fate, column: Column,
                         kind: Kind, w': World)
    requires Ordered(server, OVERLAP) && NamesRetire(server, kind) && HasKind(targets, column, kind)
    requires CursorOk(w) && AppliedOnce(server, w, column, kind) && Plausible(server, targets, w, Cycle(now, fate))
    requires w' == Happens(server, targets, w, Cycle(now, fate))
    ensures AppliedOnce(server, w', column, kind)
  {
    SinceOverlaps(w);
    CycleCommits(server, targets, w, now, fate);
    var deltas := Answer(server, SinceTime(w.stored.cursor), now);
    CommitKeepsColumns(w.stored, targets, deltas, fate);
    if column in w.stored.columns {
      CommitsColumn(w.stored, targets, deltas, fate, column);
      ColumnAppliesOnce(server, targets, CursorTime(w), now, column, kind, w.began[column]);
    }
  }

  lemma HappensAppliesOnce(server: Server, targets: seq<Target>, w: World, e: Happening, column: Column, kind: Kind)
    requires Ordered(server, OVERLAP) && NamesRetire(server, kind) && HasKind(targets, column, kind)
    requires CursorOk(w) && AppliedOnce(server, w, column, kind) && Plausible(server, targets, w, e)
    ensures CursorOk(Happens(server, targets, w, e)) &&
            AppliedOnce(server, Happens(server, targets, w, e), column, kind)
  {
    match e
    case Cycle(now, fate) =>
      CycleAppliesOnce(server, targets, w, now, fate, column, kind, Happens(server, targets, w, e));
    case Insert(c, name) =>
      if c == column {
        var t :| t in targets && t.column == column;
        Untouched(Renamed(server, CursorTime(w), kind), name);
      }
  }

  lemma {:induction false} RunAppliesOnce(server: Server, targets: seq<Target>, w: World, es: seq<Happening>,
      column: Column, kind: Kind)
    requires Ordered(server, OVERLAP) && NamesRetire(server, kind) && HasKind(targets, column, kind)
    requires CursorOk(w) && AppliedOnce(server, w, column, kind) && PlausibleRun(server, targets, w, es)
    ensures AppliedOnce(server, Run(server, targets, w, es), column, kind)
    decreases |es|
  {
    if es != [] {
      HappensAppliesOnce(server, targets, w, es[0], column, kind);
      RunAppliesOnce(server, targets, Happens(server, targets, w, es[0]), es[1..], column, kind);
    }
  }

  function Fresh(columns: Columns): World {
    World(Stored(columns, None), columns, [])
  }

  /** Over any run of cycles, however they fail and however their windows overlap, and whatever
      rows are added meanwhile, a name column reads as if the renames visible at the cursor had
      been applied once and in order, and only those of the column's own kind. */
  lemma ExactlyOnce(server: Server, targets: seq<Target>, columns: Columns, es: seq<Happening>, column: Column,
      kind: Kind)
    requires Ordered(server, OVERLAP) && NamesRetire(server, kind) && HasKind(targets, column, kind)
    requires PlausibleRun(server, targets, Fresh(columns), es) && column in columns
    ensures var w := Run(server, targets, Fresh(columns), es);
            && column in w.stored.columns && column in w.began
            && w.stored.columns[column] == MapAll(Renamed(server, CursorTime(w), kind), w.began[column])
  {
    assert MapAll([], columns[column]) == columns[column];
    RunAppliesOnce(server, targets, Fresh(columns), es, column, kind);
    ColumnsStay(server, targets, Fresh(columns), es);
  }

  lemma {:induction false} ColumnsStay(server: Server, targets: seq<Target>, w: World, es: seq<Happening>)
    ensures Run(server, targets, w, es).stored.columns.Keys == w.stored.columns.Keys
    decreases |es|
  {
    if es != [] {
      var w' := Happens(server, targets, w, es[0]);
      if es[0].Cycle? {
        var deltas := Answer(server, SinceTime(w.stored.cursor), es[0].now);
        if ApplyTargets(w.stored.columns, targets, deltas).Some? {
          TargetsPerColumn(w.stored.columns, targets, deltas);
        }
      }
      ColumnsStay(server, targets, w', es[1..]);
    }
  }

  /** A column that is no target keeps its rows through any run. */
  lemma {:induction false} OtherColumnsUntouched(server: Server, targets: seq<Target>, w: World, es: seq<Happening>,
      column: Column)
    requires column in w.stored.columns && column in w.began && w.stored.columns[column] == w.began[column]
    requires forall t | t in targets :: t.column != column
    ensures var end := Run(server, targets, w, es);
            column in end.stored.columns && column in end.began && end.stored.columns[column] == end.began[column]
    decreases |es|
  {
    if es != [] {
      if es[0].Cycle? {
        var deltas := Answer(server, SinceTime(w.stored.cursor), es[0].now);
        if ApplyTargets(w.stored.columns, targets, deltas).Some? {
          TargetsPerColumn(w.stored.columns, targets, deltas);
          NoRenamesFor(column, targets, deltas);
          assert MapAll([], w.stored.columns[column]) == w.stored.columns[column];
        }
      }
      OtherColumnsUntouched(server, targets, Happens(server, targets, w, es[0]), es[1..], column);
    }
  }

  lemma {:induction false} NoRenamesFor(column: Column, targets: seq<Target>, deltas: NameDeltas)
    requires forall t | t in targets :: t.column != column
    ensures RenamesFor(column, targets, deltas) == []
    decreases |targets|
  {
    if targets != [] {
      assert targets[0] in targets;
      NoRenamesFor(column, targets[1..], deltas);
    }
  }

  // ----- nothing is skipped ------------------------------------------------------------------

  /** Each committed window starts OVERLAP before the previous one's end, and the first at the beginning. */
  ghost predicate Chained(w: World) {
    && CursorTime(w) == (if w.windows == [] then None else Some(w.windows[|w.windows| - 1].1))
    && (forall i | 0 <= i < |w.windows| ::
          w.windows[i].0 == if i == 0 then None else Some(w.windows[i - 1].1 - OVERLAP))
  }

  lemma HappensChains(server: Server, targets: seq<Target>, w: World, e: Happening)
    requires CursorOk(w) && Chained(w) && Plausible(server, targets, w, e)
    ensures CursorOk(Happens(server, targets, w, e)) && Chained(Happens(server, targets, w, e))
  {
    var w' := Happens(server, targets, w, e);
    if e.Cycle? && w'.stored == w.stored {
      assert CursorTime(w') == CursorTime(w);
    }
  }

  lemma {:induction false} RunChains(server: Server, targets: seq<Target>, w: World, es: seq<Happening>)
    requires CursorOk(w) && Chained(w) && PlausibleRun(server, targets, w, es)
    ensures Chained(Run(server, targets, w, es))
    decreases |es|
  {
    if es != [] {
      HappensChains(server, targets, w, es[0]);
      RunChains(server, targets, Happens(server, targets, w, es[0]), es[1..]);
    }
  }

  /** Window `i` is the first committed one whose request came after the record was visible. */
  ghost predicate FirstAfter(w: World, r: Record, i: nat) {
    && i < |w.windows| && r.visible <= w.windows[i].1
    && (i > 0 ==> w.windows[i - 1].1 < r.visible)
  }

  /** In every run, the first window committed after the record is visible contains it. */
  ghost predicate NeverSkipped(server: Server, targets: seq<Target>, columns: Columns, r: Record) {
    forall es, i: nat | PlausibleRun(server, targets, Fresh(columns), es) &&
        FirstAfter(Run(server, targets, Fresh(columns), es), r, i) ::
      var window := Run(server, targets, Fresh(columns), es).windows[i];
      InWindow(server, r, window.0, window.1)
  }

  lemma TimelyIsNeverSkipped(server: Server, targets: seq<Target>, columns: Columns, r: Record)
    requires r.visible - r.stamp <= OVERLAP + if server.closed then 1 else 0
    ensures NeverSkipped(server, targets, columns, r)
  {
    forall es, i: nat | PlausibleRun(server, targets, Fresh(columns), es) &&
        FirstAfter(Run(server, targets, Fresh(columns), es), r, i)
      ensures var window := Run(server, targets, Fresh(columns), es).windows[i];
              InWindow(server, r, window.0, window.1)
    {
      RunChains(server, targets, Fresh(columns), es);
      var w := Run(server, targets, Fresh(columns), es);
      assert i > 0 ==> w.windows[i].0 == Some(w.windows[i - 1].1 - OVERLAP);
    }
  }

  lemma CommitSucceeds(w: World, targets: seq<Target>, deltas: NameDeltas)
    requires forall t | t in targets :: t.column in w.stored.columns
    ensures ApplyTargets(w.stored.columns, targets, deltas).Some?
  {
    ApplySucceeds(w.stored.columns, targets, deltas);
  }

  lemma {:induction false} ApplySucceeds(columns: Columns, targets: seq<Target>, deltas: NameDeltas)
    requires forall t | t in targets :: t.column in columns
    ensures ApplyTargets(columns, targets, deltas).Some?
    decreases |targets|
  {
    if targets != [] {
      var t := targets[0];
      assert t in targets;
      if deltas.Of(t.kind) == [] {
        ApplySucceeds(columns, targets[1..], deltas);
      } else {
        ApplySucceeds(columns[t.column := MapAll(deltas.Of(t.kind), columns[t.column])], targets[1..], deltas);
      }
    }
  }

  /** A cycle commits exactly when it comes to its end and no rename of its window meets a missing column;
      then the cursor is at its instant, and otherwise nothing at all has changed. */
  lemma {:induction false} CycleCommitsExactly(server: Server, targets: seq<Target>, w: World, now: int, fate: Fate)
    ensures var w' := Happens(server, targets, w, Cycle(now, fate));
      var since := SinceTime(w.stored.cursor);
      if fate.Completes? && forall t | t in targets ::
           Window(server, server.log, since, now, t.kind) == [] || t.column in w.stored.columns
      then w'.stored.cursor == Some(Rfc3339(now)) && w'.windows == w.windows + [(since, now)]
      else w' == w
  {
    var deltas := Answer(server, SinceTime(w.stored.cursor), now);
    ApplyFailsExactly(w.stored.columns, targets, deltas);
    assert forall t: Target :: Listed(deltas, t.kind) ==
             Window(server, server.log, SinceTime(w.stored.cursor), now, t.kind);
    if !fate.FeedDown? && deltas.IsEmpty() {
      assert forall t: Target :: Listed(deltas, t.kind) == [];
    }
  }

  /** Two good cycles, one just before the record is visible and one just as it is. */
  lemma LateIsSkipped(server: Server, targets: seq<Target>, columns: Columns, r: Record)
    requires forall t | t in targets :: t.column in columns
    requires r.visible > YEAR_ZERO + OVERLAP
    requires r.visible - r.stamp > OVERLAP + if server.closed then 1 else 0
    ensures !NeverSkipped(server, targets, columns, r)
  {
    var first, second := Cycle(r.visible - 1, Completes), Cycle(r.visible, Completes);
    var es := [first, second];
    var w := Fresh(columns);
    var w1 := Happens(server, targets, w, first);
    CommitSucceeds(w, targets, Answer(server, None, r.visible - 1));
    ColumnsStay(server, targets, w, [first]);
    assert [first][1..] == [];
    assert Run(server, targets, w, [first]) == w1;
    CommitSucceeds(w1, targets, Answer(server, Some(r.visible - 1 - OVERLAP), r.visible));
    var w2 := Happens(server, targets, w1, second);
    assert es[1..] == [second] && [second][1..] == [];
    assert PlausibleRun(server, targets, w1, [second]);
    assert PlausibleRun(server, targets, w, es);
    assert Run(server, targets, w, es) == Run(server, targets, w1, [second]) == w2;
    assert w2.windows == [(None, r.visible - 1), (Some(r.visible - 1 - OVERLAP), r.visible)];
    assert FirstAfter(w2, r, 1);
  }

  /** Five minutes is exactly the lag the overlap buys: a record is in the first window committed
      after it is visible, in every run and however cycles fail, if and only if it became visible
      no later than that after its stamp. */
  lemma OverlapIsExact(server: Server, targets: seq<Target>, columns: Columns, r: Record)
    requires forall t | t in targets :: t.column in columns
    requires r.visible > YEAR_ZERO + OVERLAP
    ensures NeverSkipped(server, targets, columns, r)
            <==> r.visible - r.stamp <= OVERLAP + if server.closed then 1 else 0
  {
    if r.visible - r.stamp <= OVERLAP + if server.closed then 1 else 0 {
      TimelyIsNeverSkipped(server, targets, columns, r);
    } else {
      LateIsSkipped(server, targets, columns, r);
    }
  }

  // ----- rows that come late -------------------------------------------------------------------

  /** A row inserted between two cycles meets the whole window of the second, whatever of it had been
      delivered before: its name is kept exactly when that window renames nobody away from it. */
  lemma {:induction false} InsertedRowIsKeptExactly(server: Server, targets: seq<Target>, w: World, column: Column,
                                                    kind: Kind, name: string, now: int)
    requires NamesRetire(server, kind) && HasKind(targets, column, kind)
    requires column in w.stored.columns && column in w.began
    requires forall t | t in targets :: t.column in w.stored.columns
    ensures var end := Run(server, targets, w, [Insert(column, name), Cycle(now, Completes)]);
      && column in end.stored.columns && |end.stored.columns[column]| == |w.stored.columns[column]| + 1
      && (end.stored.columns[column][|w.stored.columns[column]|] == name <==>
            forall r | r in Window(server, server.log, SinceTime(w.stored.cursor), now, kind) ::
              r.former == name ==> r.current == name)
  {
    var insert, cycle := Insert(column, name), Cycle(now, Completes);
    var window := Window(server, server.log, SinceTime(w.stored.cursor), now, kind);
    var deltas := Answer(server, SinceTime(w.stored.cursor), now);
    assert [insert, cycle][1..] == [cycle] && [cycle][1..] == [];
    var w1 := Happens(server, targets, w, insert);
    var end := Happens(server, targets, w1, cycle);
    assert Run(server, targets, w1, [cycle]) == end;
    CommitSucceeds(w1, targets, deltas);
    CommitApplies(w1.stored, targets, deltas, Completes);
    TargetsPerColumn(w1.stored.columns, targets, deltas);
    ListedTwice(server, targets, column, kind, SinceTime(w.stored.cursor), now, name);
    WindowsNest(server, server.log, SinceTime(w.stored.cursor), SinceTime(w.stored.cursor), now, now, kind);
    SubsequenceRetires(window, AllOf(server.log, kind));
    MovesExactly(window, name);
  }

  /** So a newcomer loses its name: the name was renamed away from and that was delivered, then a row
      came to hold it, and the next window overlaps. It does not when the first window is older. */
  lemma {:induction false} NewcomerLosesItsName(server: Server, r: Record, columns: Columns, column: Column,
                                                first: int, second: int)
    requires server.log == [r] && r.rename.former != r.rename.current && column in columns
    requires r.visible <= first <= second && YEAR_ZERO + OVERLAP <= first
    ensures var before := Run(server, [Target(column, r.kind)], Fresh(columns), [Cycle(first, Completes)]);
      var end := Run(server, [Target(column, r.kind)], before,
          [Insert(column, r.rename.former), Cycle(second, Completes)]);
      && column in end.stored.columns && |end.stored.columns[column]| == |columns[column]| + 1
      && (end.stored.columns[column][|columns[column]|] != r.rename.former <==>
            InWindow(server, r, Some(first - OVERLAP), second))
  {
    var targets, cycle := [Target(column, r.kind)], Cycle(first, Completes);
    var before := Happens(server, targets, Fresh(columns), cycle);
    assert [cycle][1..] == [] && Run(server, targets, Fresh(columns), [cycle]) == before;
    var deltas := Answer(server, None, first);
    CommitSucceeds(Fresh(columns), targets, deltas);
    TargetsPerColumn(columns, targets, deltas);
    var since := SinceTime(before.stored.cursor);
    assert server.log[1..] == [];
    assert Window(server, server.log, since, second, r.kind) ==
           if InWindow(server, r, since, second) then [r.rename] else [];
    InsertedRowIsKeptExactly(server, targets, before, column, r.kind, r.rename.former, second);
  }
}
