/** The mtime-keyed asset cache of `common-templating`: its lookups, its pins, and what
    interleaved callers may see while somebody edits the files.

    The file system is foreign, so a file is the history of what it has held. A call takes the
    lock only for the lookup and only for the insertion; every file access is a separate step. */
module AssetCache {
  import opened Wrappers

  type Bytes = seq<bv8>
  type Digest = seq<bv8>

  /** What a file holds between two writes. */
  datatype Version = Absent | Present(mtime: int, bytes: Bytes)

  /** All a file has held, oldest first; the last version is what it holds now. */
  type History = h: seq<Version> | |h| > 0 witness [Absent]

  datatype Entry = Entry(mtime: int, bytes: Bytes)

  datatype Outcome =
    | Served(bytes: Bytes)
    | Missing
    | PinMismatch
    | UnsafeName
    | IoError

  /** The fixed surroundings of a cache: the pins, the hash, and where a name leads.
      `resolve` is `safe_path` without its file access: `None` is a name that escapes the root. */
  datatype Site = Site(pins: map<string, Digest>, digest: Bytes -> Digest, resolve: string -> Option<string>)

  predicate PinHolds(site: Site, name: string, bytes: Bytes) {
    name in site.pins ==> site.digest(bytes) == site.pins[name]
  }

  /** `read_verified` on one version: what a plain, uncached read of it answers. */
  function PlainRead(site: Site, name: string, version: Version): Outcome {
    match version
    case Absent => Missing
    case Present(_, bytes) => if PinHolds(site, name, bytes) then Served(bytes) else PinMismatch
  }

  /** What a plain read answers, by version, pin and hash. */
  lemma PlainReadMeans(site: Site, name: string, version: Version)
    ensures var outcome := PlainRead(site, name, version);
      && (outcome == Missing <==> version == Absent)
      && (outcome == PinMismatch <==>
            version.Present? && name in site.pins && site.digest(version.bytes) != site.pins[name])
      && (forall bytes :: outcome == Served(bytes) <==>
            && version.Present? && version.bytes == bytes
            && (name in site.pins ==> site.digest(bytes) == site.pins[name]))
  {
  }

  /** The lookup under the read lock. */
  function Cached(entries: map<string, Entry>, name: string, mtime: int): Option<Bytes> {
    if name in entries && entries[name].mtime == mtime then Some(entries[name].bytes) else None
  }

  // ----- interleaved calls ---------------------------------------------------------------

  /** Where a call stands. The constructors carry exactly the locals `static_file` still needs. */
  datatype Progress =
    | Resolving
    | Statting
    | Looking(mtime: int)
    | Reading(mtime: int)
    | Storing(mtime: int, bytes: Bytes)
    | Done(outcome: Outcome, end: nat)

  /** `start` and `Done.end` are the file's version numbers when the call began and ended. */
  datatype Call = Call(name: string, path: string, start: nat, progress: Progress)

  datatype State = State(
    files: map<string, History>,
    entries: map<string, Entry>,
    poisoned: bool,
    calls: seq<Call>)

  datatype Step =
    | Begin(name: string)
    | Advance(call: nat)
    | Fail(call: nat)
    | Write(path: string, version: Version)
    | Poison

  function HistoryOf(files: map<string, History>, path: string): History {
    if path in files then files[path] else [Absent]
  }

  function Now(files: map<string, History>, path: string): nat {
    |HistoryOf(files, path)| - 1
  }

  function Current(files: map<string, History>, path: string): Version {
    HistoryOf(files, path)[Now(files, path)]
  }

  function Finish(s: State, c: Call, outcome: Outcome): Call {
    c.(progress := Done(outcome, Now(s.files, c.path)))
  }

  /** One step of `static_file`: the access due at the call's position, at this instant. */
  function AdvanceCall(site: Site, s: State, c: Call): (Call, map<string, Entry>) {
    var version := Current(s.files, c.path);
    match c.progress
    case Resolving =>
      (if version.Absent? then Finish(s, c, Missing) else c.(progress := Statting), s.entries)
    case Statting =>
      (if version.Absent? then Finish(s, c, Missing) else c.(progress := Looking(version.mtime)), s.entries)
    case Looking(mtime) =>
      var hit := if s.poisoned then None else Cached(s.entries, c.name, mtime);
      (if hit.Some? then Finish(s, c, Served(hit.value)) else c.(progress := Reading(mtime)), s.entries)
    case Reading(mtime) =>
      var outcome := PlainRead(site, c.name, version);
      (if outcome.Served? then c.(progress := Storing(mtime, outcome.bytes)) else Finish(s, c, outcome), s.entries)
    case Storing(mtime, bytes) =>
      (Finish(s, c, Served(bytes)),
       if s.poisoned then s.entries else s.entries[c.name := Entry(mtime, bytes)])
    case Done(_, _) => (c, s.entries)
  }

  /** Any step a caller, an editor or a panicking lock holder can take; a step that names no
      running call changes nothing. */
  function Next(site: Site, s: State, step: Step): State {
    match step
    case Begin(name) =>
      (match site.resolve(name)
       case None => s.(calls := s.calls + [Call(name, "", 0, Done(UnsafeName, 0))])
       case Some(path) => s.(calls := s.calls + [Call(name, path, Now(s.files, path), Resolving)]))
    case Advance(i) =>
      if i < |s.calls| then
        var (c, entries) := AdvanceCall(site, s, s.calls[i]);
        s.(calls := s.calls[i := c], entries := entries)
      else s
    case Fail(i) =>
      if i < |s.calls| && (s.calls[i].progress.Resolving? || s.calls[i].progress.Statting? ||
                          s.calls[i].progress.Reading?)
      then s.(calls := s.calls[i := Finish(s, s.calls[i], IoError)])
      else s
    case Write(path, version) => s.(files := s.files[path := HistoryOf(s.files, path) + [version]])
    case Poison => s.(poisoned := true)
  }

  function Execute(site: Site, s: State, steps: seq<Step>): State
    decreases |steps|
  {
    if steps == [] then s else Execute(site, Next(site, s, steps[0]), steps[1..])
  }

  /** The write gives its file an mtime the file never had. */
  predicate FreshMtime(files: map<string, History>, step: Step) {
    step.Write? && step.version.Present? ==>
      forall v | v in HistoryOf(files, step.path) :: v.Present? ==> v.mtime != step.version.mtime
  }

  predicate FreshMtimes(site: Site, s: State, steps: seq<Step>)
    decreases |steps|
  {
    steps == [] || (FreshMtime(s.files, steps[0]) && FreshMtimes(site, Next(site, s, steps[0]), steps[1..]))
  }

  /** The cache as `Builder::build` leaves it: empty, over files that hold one version each. */
  predicate Booted(s: State) {
    s.entries == map[] && s.calls == [] && forall p | p in s.files :: |s.files[p]| == 1
  }

  // ----- what every state keeps ----------------------------------------------------------

  /** Version `i` of the file carries this mtime. */
  predicate Stamped(h: seq<Version>, i: nat, mtime: int) {
    i < |h| && h[i].Present? && h[i].mtime == mtime
  }

  predicate Held(h: seq<Version>, i: nat, bytes: Bytes) {
    i < |h| && h[i].Present? && h[i].bytes == bytes
  }

  /** The bytes were read from the file no earlier than its version with this mtime. */
  ghost predicate ReadSince(h: seq<Version>, mtime: int, bytes: Bytes) {
    exists i: nat, j: nat :: i <= j && Stamped(h, i, mtime) && Held(h, j, bytes)
  }

  ghost predicate SeenSince(h: seq<Version>, start: nat, mtime: int) {
    exists i: nat :: start <= i && Stamped(h, i, mtime)
  }

  ghost predicate DistinctMtimes(h: seq<Version>) {
    forall i: nat, j: nat, m: int :: Stamped(h, i, m) && Stamped(h, j, m) ==> i == j
  }

  /** The answer is what a plain read gives at one of the instants the call spans. */
  ghost predicate Linearized(site: Site, h: seq<Version>, c: Call)
    requires c.progress.Done?
  {
    exists i: nat :: c.start <= i <= c.progress.end && i < |h| && c.progress.outcome == PlainRead(site, c.name, h[i])
  }

  ghost predicate CallOk(site: Site, files: map<string, History>, c: Call) {
    var h := HistoryOf(files, c.path);
    match c.progress
    case Resolving => c.start < |h| && site.resolve(c.name) == Some(c.path)
    case Statting => c.start < |h| && site.resolve(c.name) == Some(c.path)
    case Looking(m) => SeenSince(h, c.start, m) && site.resolve(c.name) == Some(c.path)
    case Reading(m) => SeenSince(h, c.start, m) && site.resolve(c.name) == Some(c.path)
    case Storing(m, b) =>
      SeenSince(h, c.start, m) && SeenThenRead(h, c.start, m, b) && PinHolds(site, c.name, b)
      && site.resolve(c.name) == Some(c.path)
    case Done(outcome, end) =>
      outcome.UnsafeName? || outcome.IoError? || (end < |h| && Linearized(site, h, c))
  }

  ghost predicate SeenThenRead(h: seq<Version>, start: nat, mtime: int, bytes: Bytes) {
    exists i: nat, j: nat :: start <= i <= j && Stamped(h, i, mtime) && Held(h, j, bytes)
  }

  /** The bytes an entry holds for an mtime were the file's at that mtime or later, and a pinned
      name has only entries of the pinned hash. */
  ghost predicate Coherent(site: Site, files: map<string, History>, entries: map<string, Entry>) {
    forall name | name in entries ::
      && PinHolds(site, name, entries[name].bytes)
      && site.resolve(name).Some?
      && ReadSince(HistoryOf(files, site.resolve(name).value), entries[name].mtime, entries[name].bytes)
  }

  ghost predicate Inv(site: Site, s: State) {
    && (forall p | p in s.files :: DistinctMtimes(s.files[p]))
    && Coherent(site, s.files, s.entries)
    && (forall i | 0 <= i < |s.calls| :: CallOk(site, s.files, s.calls[i]))
  }

  lemma StampedGrows(h: seq<Version>, v: Version)
    requires DistinctMtimes(h)
    requires v.Present? ==> forall w | w in h :: w.Present? ==> w.mtime != v.mtime
    ensures DistinctMtimes(h + [v])
  {
    forall i: nat, j: nat, m: int | Stamped(h + [v], i, m) && Stamped(h + [v], j, m) ensures i == j {
      assert i < |h| ==> h[i] in h && Stamped(h, i, m);
      assert j < |h| ==> h[j] in h && Stamped(h, j, m);
    }
  }

  /** What a call has seen, it has still seen after the file gains a version. */
  lemma CallOkGrows(site: Site, files: map<string, History>, path: string, v: Version, c: Call)
    requires CallOk(site, files, c)
    ensures CallOk(site, files[path := HistoryOf(files, path) + [v]], c)
  {
    var h := HistoryOf(files, c.path);
    var h' := HistoryOf(files[path := HistoryOf(files, path) + [v]], c.path);
    assert h <= h';
    assert forall i: nat, m: int :: Stamped(h, i, m) ==> Stamped(h', i, m);
    assert forall i: nat, b: Bytes :: Held(h, i, b) ==> Held(h', i, b);
  }

  lemma CoherentGrows(site: Site, files: map<string, History>, entries: map<string, Entry>, path: string, v: Version)
    requires Coherent(site, files, entries)
    ensures Coherent(site, files[path := HistoryOf(files, path) + [v]], entries)
  {
    forall name | name in entries
      ensures ReadSince(HistoryOf(files[path := HistoryOf(files, path) + [v]], site.resolve(name).value),
                        entries[name].mtime, entries[name].bytes)
    {
      var p := site.resolve(name).value;
      var h, h' := HistoryOf(files, p), HistoryOf(files[path := HistoryOf(files, path) + [v]], p);
      assert h <= h';
      var i: nat, j: nat :| i <= j && Stamped(h, i, entries[name].mtime) && Held(h, j, entries[name].bytes);
      assert Stamped(h', i, entries[name].mtime) && Held(h', j, entries[name].bytes);
    }
  }

  /** The crux: a hit under an mtime that the caller saw may hold bytes read after that mtime was
      gone, but only bytes the file came to hold while this call was running. */
  lemma HitIsInSpan(h: seq<Version>, start: nat, mtime: int, bytes: Bytes) returns (j: nat)
    requires DistinctMtimes(h) && SeenSince(h, start, mtime) && ReadSince(h, mtime, bytes)
    ensures start <= j < |h| && Held(h, j, bytes)
  {
    var i: nat :| start <= i && Stamped(h, i, mtime);
    var i': nat, j': nat :| i' <= j' && Stamped(h, i', mtime) && Held(h, j', bytes);
    assert i == i';
    j := j';
  }

  lemma FinishNow(site: Site, s: State, c: Call)
    requires c.start < |HistoryOf(s.files, c.path)|
    ensures CallOk(site, s.files, Finish(s, c, PlainRead(site, c.name, Current(s.files, c.path))))
  {
    var done := Finish(s, c, PlainRead(site, c.name, Current(s.files, c.path)));
    var h := HistoryOf(s.files, c.path);
    assert done.start <= |h| - 1 <= done.progress.end &&
           done.progress.outcome == PlainRead(site, done.name, h[|h| - 1]);
  }

  lemma AdvanceKeeps(site: Site, s: State, c: Call)
    requires Inv(site, s) && CallOk(site, s.files, c)
    ensures var (c', entries) := AdvanceCall(site, s, c);
            CallOk(site, s.files, c') && Coherent(site, s.files, entries)
  {
    var h := HistoryOf(s.files, c.path);
    var now := Now(s.files, c.path);
    assert DistinctMtimes(h);
    match c.progress
    case Resolving => FinishNow(site, s, c);
    case Statting =>
      FinishNow(site, s, c);
      assert h[now].Present? ==> Stamped(h, now, h[now].mtime);
    case Looking(m) =>
      if !s.poisoned && Cached(s.entries, c.name, m).Some? {
        var j := HitIsInSpan(h, c.start, m, s.entries[c.name].bytes);
        assert PlainRead(site, c.name, h[j]) == Served(s.entries[c.name].bytes);
      }
    case Reading(m) =>
      var i: nat :| c.start <= i && Stamped(h, i, m);
      FinishNow(site, s, c);
      assert h[now].Present? ==> Held(h, now, h[now].bytes);
    case Storing(m, b) =>
      var i: nat, j: nat :| c.start <= i <= j && Stamped(h, i, m) && Held(h, j, b);
      assert PlainRead(site, c.name, h[j]) == Served(b);
      assert ReadSince(h, m, b);
    case Done(_, _) =>
  }

  lemma WriteKeeps(site: Site, s: State, path: string, v: Version, s': State)
    requires Inv(site, s) && FreshMtime(s.files, Write(path, v)) && s' == Next(site, s, Write(path, v))
    ensures Inv(site, s')
  {
    CoherentGrows(site, s.files, s.entries, path, v);
    forall i | 0 <= i < |s.calls| { CallOkGrows(site, s.files, path, v, s.calls[i]); }
    StampedGrows(HistoryOf(s.files, path), v);
  }

  lemma CallStepKeeps(site: Site, s: State, step: Step, s': State)
    requires Inv(site, s) && s' == Next(site, s, step) && (step.Advance? || step.Fail?)
    ensures Inv(site, s')
  {
    if step.Advance? && step.call < |s.calls| { AdvanceKeeps(site, s, s.calls[step.call]); }
  }

  lemma NextKeeps(site: Site, s: State, step: Step, s': State)
    requires Inv(site, s) && FreshMtime(s.files, step) && s' == Next(site, s, step)
    ensures Inv(site, s')
  {
    match step
    case Begin(_) =>
    case Advance(_) => CallStepKeeps(site, s, step, s');
    case Fail(_) => CallStepKeeps(site, s, step, s');
    case Write(path, v) => WriteKeeps(site, s, path, v, s');
    case Poison =>
  }

  lemma {:induction false} ExecuteKeeps(site: Site, s: State, steps: seq<Step>)
    requires Inv(site, s) && FreshMtimes(site, s, steps)
    ensures Inv(site, Execute(site, s, steps))
    decreases |steps|
  {
    if steps != [] {
      NextKeeps(site, s, steps[0], Next(site, s, steps[0]));
      ExecuteKeeps(site, Next(site, s, steps[0]), steps[1..]);
    }
  }

  /** Under any interleaving of callers and editors in which no write reuses an mtime of its file,
      every finished call that met no I/O error answers what a plain read of the file answers at
      an instant between the call's beginning and its end. */
  lemma Linearizable(site: Site, s: State, steps: seq<Step>, i: nat)
    requires Booted(s) && FreshMtimes(site, s, steps)
    requires i < |Execute(site, s, steps).calls|
    requires Execute(site, s, steps).calls[i].progress.Done?
    ensures var end := Execute(site, s, steps);
            var c := end.calls[i];
            || c.progress.outcome.IoError?
            || c.progress.outcome.UnsafeName?
            || (c.progress.end <= Now(end.files, c.path) && Linearized(site, HistoryOf(end.files, c.path), c))
  {
    ExecuteKeeps(site, s, steps);
    assert CallOk(site, Execute(site, s, steps).files, Execute(site, s, steps).calls[i]);
  }

  /** Nothing gets into the cache or out of a call but bytes that were checked under their name. */
  ghost predicate PinsKept(site: Site, s: State) {
    && (forall name | name in s.entries :: PinHolds(site, name, s.entries[name].bytes))
    && (forall i | 0 <= i < |s.calls| :: CallPinned(site, s.calls[i]))
  }

  ghost predicate CallPinned(site: Site, c: Call) {
    match c.progress
    case Storing(_, bytes) => PinHolds(site, c.name, bytes)
    case Done(Served(bytes), _) => PinHolds(site, c.name, bytes)
    case _ => true
  }

  lemma NextKeepsPins(site: Site, s: State, step: Step, s': State)
    requires PinsKept(site, s) && s' == Next(site, s, step)
    ensures PinsKept(site, s')
  {
    forall i | 0 <= i < |s'.calls| ensures CallPinned(site, s'.calls[i]) {
      assert i < |s.calls| ==> CallPinned(site, s.calls[i]);
    }
  }

  lemma {:induction false} ExecuteKeepsPins(site: Site, s: State, steps: seq<Step>)
    requires PinsKept(site, s)
    ensures PinsKept(site, Execute(site, s, steps))
    decreases |steps|
  {
    if steps != [] {
      NextKeepsPins(site, s, steps[0], Next(site, s, steps[0]));
      ExecuteKeepsPins(site, Next(site, s, steps[0]), steps[1..]);
    }
  }

  /** Bytes served under a pinned name have the pinned hash, cached or not, whatever is written to the
      files and under whatever mtimes. */
  lemma {:induction false} PinnedBytes(site: Site, s: State, steps: seq<Step>, i: nat)
    requires Booted(s)
    requires i < |Execute(site, s, steps).calls|
    requires Execute(site, s, steps).calls[i].progress.Done? &&
             Execute(site, s, steps).calls[i].progress.outcome.Served?
    requires Execute(site, s, steps).calls[i].name in site.pins
    ensures var c := Execute(site, s, steps).calls[i];
            site.digest(c.progress.outcome.bytes) == site.pins[c.name]
  {
    ExecuteKeepsPins(site, s, steps);
    assert CallPinned(site, Execute(site, s, steps).calls[i]);
  }

  /** A call is refused as unsafe from its start, and only for a name that leads out of the root. */
  predicate RefusedExactly(site: Site, c: Call) {
    match site.resolve(c.name)
    case None => c.progress.Done? && c.progress.outcome == UnsafeName
    case Some(path) => c.path == path && (c.progress.Done? ==> c.progress.outcome != UnsafeName)
  }

  lemma NextRefuses(site: Site, s: State, step: Step, s': State)
    requires forall i | 0 <= i < |s.calls| :: RefusedExactly(site, s.calls[i])
    requires s' == Next(site, s, step)
    ensures forall i | 0 <= i < |s'.calls| :: RefusedExactly(site, s'.calls[i])
  {
  }

  /** In every run exactly the calls for names that lead out of the root are unsafe. */
  lemma {:induction false} UnsafeExactly(site: Site, s: State, steps: seq<Step>)
    requires forall i | 0 <= i < |s.calls| :: RefusedExactly(site, s.calls[i])
    ensures forall i | 0 <= i < |Execute(site, s, steps).calls| ::
              RefusedExactly(site, Execute(site, s, steps).calls[i])
    decreases |steps|
  {
    if steps != [] {
      NextRefuses(site, s, steps[0], Next(site, s, steps[0]));
      UnsafeExactly(site, Next(site, s, steps[0]), steps[1..]);
    }
  }

  /** Where a call begun on a poisoned cache stands: whatever it holds, it read itself. */
  ghost predicate ReadItself(site: Site, files: map<string, History>, c: Call) {
    var h := HistoryOf(files, c.path);
    match c.progress
    case Storing(_, bytes) =>
      PinHolds(site, c.name, bytes) && exists j: nat :: c.start <= j && Held(h, j, bytes)
    case Done(outcome, end) =>
      outcome.UnsafeName? || outcome.IoError? || (end < |h| && Linearized(site, h, c))
    case _ => c.start < |h|
  }

  lemma ReadItselfGrows(site: Site, files: map<string, History>, path: string, v: Version, c: Call)
    requires ReadItself(site, files, c)
    ensures ReadItself(site, files[path := HistoryOf(files, path) + [v]], c)
  {
    var h := HistoryOf(files, c.path);
    var h' := HistoryOf(files[path := HistoryOf(files, path) + [v]], c.path);
    assert h <= h';
    assert forall i: nat, b: Bytes :: Held(h, i, b) ==> Held(h', i, b);
  }

  lemma AdvanceReadsItself(site: Site, s: State, c: Call)
    requires s.poisoned && ReadItself(site, s.files, c)
    ensures var (c', entries) := AdvanceCall(site, s, c);
            ReadItself(site, s.files, c') && entries == s.entries
  {
    var h, now := HistoryOf(s.files, c.path), Now(s.files, c.path);
    match c.progress
    case Reading(_) =>
      FinishNow(site, s, c);
      assert h[now].Present? ==> Held(h, now, h[now].bytes);
    case Storing(_, bytes) =>
      var j: nat :| c.start <= j && Held(h, j, bytes);
      assert PlainRead(site, c.name, h[j]) == Served(bytes);
    case Done(_, _) =>
    case _ => FinishNow(site, s, c);
  }

  lemma PoisonedNext(site: Site, s: State, step: Step, begun: nat, s': State)
    requires s.poisoned && begun <= |s.calls| && s' == Next(site, s, step)
    requires forall i | begun <= i < |s.calls| :: ReadItself(site, s.files, s.calls[i])
    ensures s'.poisoned && s'.entries == s.entries && |s.calls| <= |s'.calls|
    ensures forall i | begun <= i < |s'.calls| :: ReadItself(site, s'.files, s'.calls[i])
  {
    forall i | begun <= i < |s'.calls| ensures ReadItself(site, s'.files, s'.calls[i]) {
      if i < |s.calls| {
        if step == Advance(i) { AdvanceReadsItself(site, s, s.calls[i]); }
        if step.Write? { ReadItselfGrows(site, s.files, step.path, step.version, s.calls[i]); }
      }
    }
  }

  /** Once a lock holder has panicked the cache neither serves nor stores: every call begun from then on
      answers what a plain read answers at an instant inside it, whatever mtimes the editors reuse. */
  lemma {:induction false} PoisonedCacheIsBypassed(site: Site, s: State, steps: seq<Step>, begun: nat, end: State)
    requires s.poisoned && begun <= |s.calls| && end == Execute(site, s, steps)
    requires forall i | begun <= i < |s.calls| :: ReadItself(site, s.files, s.calls[i])
    ensures end.poisoned && end.entries == s.entries && |s.calls| <= |end.calls|
    ensures forall i | begun <= i < |end.calls| :: ReadItself(site, end.files, end.calls[i])
    ensures forall i | begun <= i < |end.calls| ::
              var c := end.calls[i];
              c.progress.Done? && !c.progress.outcome.IoError? && !c.progress.outcome.UnsafeName? ==>
                Linearized(site, HistoryOf(end.files, c.path), c)
    decreases |steps|
  {
    if steps != [] {
      var s' := Next(site, s, steps[0]);
      PoisonedNext(site, s, steps[0], begun, s');
      PoisonedCacheIsBypassed(site, s', steps[1..], begun, end);
    }
  }

  // ----- one call, undisturbed ------------------------------------------------------------

  function Alone(call: nat, steps: nat): seq<Step> {
    seq(steps, _ => Advance(call))
  }

  /** What `static_file` answers while its file stays put: the cached bytes if their mtime is
      still the file's, else a plain read. */
  function Undisturbed(site: Site, entries: map<string, Entry>, name: string, version: Version): Outcome {
    if version.Present? && Cached(entries, name, version.mtime).Some?
    then Served(Cached(entries, name, version.mtime).value)
    else PlainRead(site, name, version)
  }

  /** The state with one more call at the end. */
  function Calling(s: State, c: Call, entries: map<string, Entry>): State {
    s.(calls := s.calls + [c], entries := entries)
  }

  /** `steps` accesses of one call with nobody else moving. */
  function Proceed(site: Site, s: State, c: Call, entries: map<string, Entry>, steps: nat): (Call, map<string, Entry>)
    decreases steps
  {
    if steps == 0 then (c, entries)
    else
      var next := AdvanceCall(site, Calling(s, c, entries), c);
      Proceed(site, s, next.0, next.1, steps - 1)
  }

  lemma {:induction false} ExecuteAlone(site: Site, s: State, c: Call, entries: map<string, Entry>, steps: nat)
    ensures var end := Proceed(site, s, c, entries, steps);
            Execute(site, Calling(s, c, entries), Alone(|s.calls|, steps)) == Calling(s, end.0, end.1)
    decreases steps
  {
    if steps > 0 {
      var before := Calling(s, c, entries);
      var next := AdvanceCall(site, before, c);
      assert before.calls[|s.calls|] == c;
      assert before.calls[|s.calls| := next.0] == s.calls + [next.0];
      assert Alone(|s.calls|, steps)[1..] == Alone(|s.calls|, steps - 1);
      ExecuteAlone(site, s, next.0, next.1, steps - 1);
    }
  }

  /** Where an undisturbed call is bound for. */
  function Bound(site: Site, s: State, c: Call): Call {
    var version := Current(s.files, c.path);
    match c.progress
    case Resolving => Finish(s, c, Undisturbed(site, s.entries, c.name, version))
    case Statting => Finish(s, c, Undisturbed(site, s.entries, c.name, version))
    case Looking(mtime) =>
      var hit := Cached(s.entries, c.name, mtime);
      Finish(s, c, if hit.Some? then Served(hit.value) else PlainRead(site, c.name, version))
    case Reading(_) => Finish(s, c, PlainRead(site, c.name, version))
    case Storing(_, bytes) => Finish(s, c, Served(bytes))
    case Done(_, _) => c
  }

  function Remaining(p: Progress): nat {
    match p
    case Resolving => 5
    case Statting => 4
    case Looking(_) => 3
    case Reading(_) => 2
    case Storing(_, _) => 1
    case Done(_, _) => 0
  }

  lemma AdvanceApproaches(site: Site, s: State, c: Call, next: (Call, map<string, Entry>))
    requires !s.poisoned && next == AdvanceCall(site, Calling(s, c, s.entries), c)
    ensures Bound(site, s, next.0) == Bound(site, s, c)
    ensures next.0.progress.Done? || next.1 == s.entries
    ensures c.progress.Done? || Remaining(next.0.progress) < Remaining(c.progress)
  {
    match c.progress
    case Resolving =>
    case Statting =>
    case Looking(_) =>
    case Reading(_) =>
    case Storing(_, _) =>
    case Done(_, _) =>
  }

  lemma {:induction false} ProceedAnswers(site: Site, s: State, c: Call, entries: map<string, Entry>, steps: nat)
    requires !s.poisoned && Remaining(c.progress) <= steps
    requires c.progress.Done? || entries == s.entries
    ensures Proceed(site, s, c, entries, steps).0 == Bound(site, s, c)
    decreases steps
  {
    if steps > 0 {
      var next := AdvanceCall(site, Calling(s, c, entries), c);
      if !c.progress.Done? { AdvanceApproaches(site, s, c, next); }
      ProceedAnswers(site, s, next.0, next.1, steps - 1);
    }
  }

  lemma AloneAnswers(site: Site, s: State, name: string, path: string)
    requires site.resolve(name) == Some(path) && !s.poisoned
    ensures var end := Execute(site, s, [Begin(name)] + Alone(|s.calls|, 5));
            && |end.calls| == |s.calls| + 1
            && end.calls[|s.calls|] == Call(name, path, Now(s.files, path),
                 Done(Undisturbed(site, s.entries, name, Current(s.files, path)), Now(s.files, path)))
            && end.files == s.files
  {
    var c := Call(name, path, Now(s.files, path), Resolving);
    assert ([Begin(name)] + Alone(|s.calls|, 5))[1..] == Alone(|s.calls|, 5);
    assert Next(site, s, Begin(name)) == Calling(s, c, s.entries);
    ExecuteAlone(site, s, c, s.entries, 5);
    ProceedAnswers(site, s, c, s.entries, 5);
  }

  /** Exactly when an edit defeats the cache: the call after it disagrees with a plain read if and
      only if the edit brought back the mtime the cache holds, with other bytes under it. */
  lemma StaleExactlyOnReusedMtime(site: Site, s: State, name: string, path: string, edit: Version)
    requires site.resolve(name) == Some(path) && !s.poisoned && Coherent(site, s.files, s.entries)
    ensures var end := Execute(site, Next(site, s, Write(path, edit)), [Begin(name)] + Alone(|s.calls|, 5));
            && |end.calls| == |s.calls| + 1
            && end.calls[|s.calls|].progress.Done?
            && (!Linearized(site, HistoryOf(end.files, path), end.calls[|s.calls|])
                <==> edit.Present? && name in s.entries
                     && s.entries[name].mtime == edit.mtime && s.entries[name].bytes != edit.bytes)
  {
    var s' := Next(site, s, Write(path, edit));
    AloneAnswers(site, s', name, path);
    var end := Execute(site, s', [Begin(name)] + Alone(|s.calls|, 5));
    var c := end.calls[|s.calls|];
    var h := HistoryOf(end.files, path);
    assert h[|h| - 1] == edit;
    assert c.start == |h| - 1 == c.progress.end;
    assert Linearized(site, h, c) <==> c.progress.outcome == PlainRead(site, name, h[|h| - 1]);
  }

  /** The first undisturbed read of a present file, while nothing is cached. */
  lemma FirstRead(site: Site, s: State, name: string, path: string, mtime: int, bytes: Bytes, s': State)
    requires site.resolve(name) == Some(path) && !s.poisoned && s.entries == map[] && s.calls == []
    requires Current(s.files, path) == Present(mtime, bytes) && PinHolds(site, name, bytes)
    requires s' == Execute(site, s, [Begin(name)] + Alone(0, 5))
    ensures |s'.calls| == 1 && s'.files == s.files && !s'.poisoned
    ensures s'.entries == map[name := Entry(mtime, bytes)]
  {
    var c := Call(name, path, Now(s.files, path), Resolving);
    assert ([Begin(name)] + Alone(0, 5))[1..] == Alone(0, 5);
    assert Next(site, s, Begin(name)) == Calling(s, c, s.entries);
    ExecuteAlone(site, s, c, s.entries, 5);
    var c1, c2, c3 := c.(progress := Statting), c.(progress := Looking(mtime)), c.(progress := Reading(mtime));
    var c4 := c.(progress := Storing(mtime, bytes));
    assert Proceed(site, s, c, s.entries, 5) == Proceed(site, s, c1, s.entries, 4);
    assert Proceed(site, s, c1, s.entries, 4) == Proceed(site, s, c2, s.entries, 3);
    assert Proceed(site, s, c2, s.entries, 3) == Proceed(site, s, c3, s.entries, 2);
    assert Proceed(site, s, c3, s.entries, 2) == Proceed(site, s, c4, s.entries, 1);
  }

  /** From the boot: a read, an edit that restores the mtime, and a read that answers the old bytes. */
  lemma {:induction false} RestoredMtimeIsStale(site: Site, s: State, name: string, path: string, mtime: int,
                                                before: Bytes, after: Bytes, s1: State, s2: State)
    requires Booted(s) && !s.poisoned && site.resolve(name) == Some(path) && name !in site.pins
    requires Current(s.files, path) == Present(mtime, before) && before != after
    requires s1 == Execute(site, s, [Begin(name)] + Alone(0, 5))
    requires s2 == Next(site, s1, Write(path, Present(mtime, after)))
    ensures var end := Execute(site, s2, [Begin(name)] + Alone(1, 5));
      && |end.calls| == 2 && end.calls[1].progress.Done? && end.calls[1].start == Now(s2.files, path)
      && end.calls[1].progress.outcome == Served(before)
      && PlainRead(site, name, Current(end.files, path)) == Served(after)
  {
    FirstRead(site, s, name, path, mtime, before, s1);
    AloneAnswers(site, s2, name, path);
  }

  // ----- the cache object -------------------------------------------------------------------

  class AssetCache {
    const site: Site
    var entries: map<string, Entry>

    /** Every pinned file must be there with its hash before the cache exists. */
    static method CheckPins(site: Site, files: map<string, History>) returns (refused: Option<Outcome>)
      ensures refused.None? <==>
              forall name | name in site.pins ::
                site.resolve(name).Some? && PlainRead(site, name, Current(files, site.resolve(name).value)).Served?
      ensures refused.None? <==>
              forall name | name in site.pins ::
                && site.resolve(name).Some?
                && var version := Current(files, site.resolve(name).value);
                   version.Present? && site.digest(version.bytes) == site.pins[name]
      ensures refused.Some? ==>
              exists name | name in site.pins ::
                refused.value == (if site.resolve(name).Some?
                                  then PlainRead(site, name, Current(files, site.resolve(name).value)) else UnsafeName)
    {
      var left := site.pins.Keys;
      while left != {}
        invariant left <= site.pins.Keys
        invariant forall name | name in site.pins && name !in left ::
                    site.resolve(name).Some? && PlainRead(site, name, Current(files, site.resolve(name).value)).Served?
      {
        var name :| name in left;
        if site.resolve(name).None? {
          return Some(UnsafeName);
        }
        var outcome := PlainRead(site, name, Current(files, site.resolve(name).value));
        if !outcome.Served? {
          return Some(outcome);
        }
        left := left - {name};
      }
      return None;
    }

    constructor (site: Site)
      ensures this.site == site && entries == map[]
    {
      this.site := site;
      entries := map[];
    }

    method Lookup(name: string, mtime: int) returns (hit: Option<Bytes>)
      ensures hit.Some? <==> name in entries && entries[name].mtime == mtime
      ensures hit.Some? ==> hit.value == entries[name].bytes
    {
      hit := None;
      if name in entries {
        var entry := entries[name];
        if entry.mtime == mtime {
          hit := Some(entry.bytes);
        }
      }
    }

    /** The whole call over files nobody is editing. On a coherent cache whose files have distinct
        mtimes it answers what a plain read answers, and it leaves the cache coherent. */
    method StaticFile(ghost files: map<string, History>, name: string, version: Version) returns (outcome: Outcome)
      requires Coherent(site, files, entries)
      requires site.resolve(name).Some? ==> version == Current(files, site.resolve(name).value)
      modifies this
      ensures site.resolve(name).None? ==> outcome == UnsafeName && entries == old(entries)
      ensures site.resolve(name).Some? ==> outcome == Undisturbed(site, old(entries), name, version)
      ensures site.resolve(name).Some? ==>
                match version
                case Absent => outcome == Missing
                case Present(mtime, bytes) =>
                  if name in old(entries) && old(entries)[name].mtime == mtime
                  then outcome == Served(old(entries)[name].bytes)
                  else if name in site.pins && site.digest(bytes) != site.pins[name] then outcome == PinMismatch
                  else outcome == Served(bytes)
      ensures site.resolve(name).Some? && DistinctMtimes(HistoryOf(files, site.resolve(name).value)) ==>
                outcome == PlainRead(site, name, version)
      ensures entries == if site.resolve(name).Some? && outcome.Served?
                         then old(entries)[name := Entry(version.mtime, outcome.bytes)] else old(entries)
      ensures Coherent(site, files, entries)
    {
      if site.resolve(name).None? {
        return UnsafeName;
      }
      ghost var h := HistoryOf(files, site.resolve(name).value);
      if version.Absent? {
        return Missing;
      }
      assert Stamped(h, |h| - 1, version.mtime) && Held(h, |h| - 1, version.bytes);
      var hit := Lookup(name, version.mtime);
      if hit.Some? {
        if DistinctMtimes(h) {
          assert SeenSince(h, |h| - 1, version.mtime);
          var j := HitIsInSpan(h, |h| - 1, version.mtime, hit.value);
        }
        assert entries[name := Entry(version.mtime, hit.value)] == entries;
        return Served(hit.value);
      }
      outcome := PlainRead(site, name, version);
      if outcome.Served? {
        assert ReadSince(h, version.mtime, outcome.bytes);
        entries := entries[name := Entry(version.mtime, outcome.bytes)];
      }
    }
  }
}
