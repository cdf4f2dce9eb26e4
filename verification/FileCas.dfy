/** WriteBytesIfMatch as a protocol between any number of concurrent calls on one path, in one
    or several processes, any of which may stop at any step: exclusive-create lock file, read,
    compare, temporary file, rename, remove the lock. File system calls are the atomic steps. */
module FileCas {
  import opened Logs
  import opened Wire

  type Bytes(==, !new)
  type Tag(==, !new)

  datatype File = File(content: Bytes, mtime: int)

  /** The two ETag functions: of the content, and of modification time and size. */
  datatype Tags = Tags(strong: Bytes -> Tag, weak: File -> Tag)

  datatype Op = Op(data: Bytes, ifMatch: Tag, dryRun: bool)

  datatype Outcome = Committed | Mismatch | DryRunOk | Failed

  /** statOk is false when the Stat behind the weak tag failed. */
  predicate Matches(g: Tags, f: File, tag: Tag, statOk: bool) {
    g.strong(f.content) == tag || (statOk && g.weak(f) == tag)
  }

  // ---- The sequential specification: compare and swap ----

  /** One operation taking effect at once. mtime is the new file's modification time. */
  datatype Entry = Entry(call: int, op: Op, statOk: bool, mtime: int, outcome: Outcome)

  function Cas(g: Tags, file: Option<File>, op: Op, statOk: bool, mtime: int): (Option<File>, Outcome) {
    if file.None? || !Matches(g, file.value, op.ifMatch, statOk) then (file, Mismatch)
    else if op.dryRun then (file, DryRunOk)
    else (Some(File(op.data, mtime)), Committed)
  }

  function After(g: Tags, file: Option<File>, e: Entry): Option<File> {
    Cas(g, file, e.op, e.statOk, e.mtime).0
  }

  /** The file after the operations of the log, one at a time. */
  function Replay(g: Tags, file: Option<File>, log: seq<Entry>): Option<File> {
    if log == [] then file else After(g, Replay(g, file, Init(log)), Last(log))
  }

  /** Every operation of the log has the outcome it has when run alone at its place. */
  predicate Legal(g: Tags, file: Option<File>, log: seq<Entry>) {
    log == [] ||
    var e := Last(log);
    Legal(g, file, Init(log)) && Cas(g, Replay(g, file, Init(log)), e.op, e.statOk, e.mtime).1 == e.outcome
  }

  /** In plain words: a file that is there and has the tag, strong or weak, is replaced unless the run is
      dry; in every other case nothing changes. */
  lemma CasIs(g: Tags, file: Option<File>, op: Op, statOk: bool, mtime: int)
    ensures var (after, outcome) := Cas(g, file, op, statOk, mtime);
            var matches := file.Some? &&
              (g.strong(file.value.content) == op.ifMatch || (statOk && g.weak(file.value) == op.ifMatch));
            && (outcome == Committed <==> matches && !op.dryRun)
            && (outcome == DryRunOk <==> matches && op.dryRun)
            && (outcome == Mismatch <==> !matches)
            && after == if outcome == Committed then Some(File(op.data, mtime)) else file
  {}

  // ---- The protocol ----

  datatype Pc =
    | Opening(op: Op)
    | Locked(op: Op)
    | Compared(op: Op, content: Bytes)
    | Weakly(op: Op)
    | Matched(op: Op)
    | Writing(op: Op)
    | Ready(op: Op)
    | Releasing(op: Op, outcome: Outcome)
    | Returned(op: Op, outcome: Outcome)
    | Crashed(op: Op)

  datatype Temp = Partial | Full(data: Bytes)

  /** holder and log are histories: the call that created the lock file, and the operations in
      the order in which they took effect. */
  datatype State = State(
    file: Option<File>, lock: bool, temps: map<int, Temp>, calls: map<int, Pc>,
    holder: Option<int>, log: seq<Entry>)

  datatype Action =
    | Call(p: int, op: Op)
    | OpenLock(p: int) | Retry(p: int) | GiveUp(p: int)
    | Read(p: int) | CompareStrong(p: int) | StatWeak(p: int, statOk: bool)
    | DryRun(p: int) | CreateTemp(p: int) | WriteTemp(p: int) | Rename(p: int, mtime: int)
    | Fail(p: int, cleaned: bool) | Release(p: int, removed: bool) | Crash(p: int)

  ghost function Initial(file: Option<File>): State {
    State(file, false, map[], map[], None, [])
  }

  ghost predicate Enabled(g: Tags, s: State, a: Action) {
    if a.Call? then a.p !in s.calls
    else
      a.p in s.calls &&
      var pc := s.calls[a.p];
      match a
      case Call(_, _) => false
      case OpenLock(_) => pc.Opening? && !s.lock
      case Retry(_) => pc.Opening? && s.lock
      case GiveUp(_) => pc.Opening?
      case Read(_) => pc.Locked?
      case CompareStrong(_) => pc.Compared?
      case StatWeak(_, _) => pc.Weakly?
      case DryRun(_) => pc.Matched? && pc.op.dryRun
      case CreateTemp(_) => pc.Matched? && !pc.op.dryRun
      case WriteTemp(_) => pc.Writing?
      case Rename(_, _) => pc.Ready? && a.p in s.temps && s.temps[a.p].Full?
      case Fail(_, _) => pc.Locked? || (pc.Matched? && !pc.op.dryRun) || pc.Writing? || pc.Ready?
      case Release(_, _) => pc.Releasing?
      case Crash(_) => !pc.Returned? && !pc.Crashed?
  }

  ghost function To(s: State, p: int, pc: Pc): State {
    s.(calls := s.calls[p := pc])
  }

  ghost function Logged(s: State, p: int, op: Op, statOk: bool, mtime: int, outcome: Outcome): State {
    s.(log := s.log + [Entry(p, op, statOk, mtime, outcome)], calls := s.calls[p := Releasing(op, outcome)])
  }

  ghost function Fire(g: Tags, s: State, a: Action): State
    requires Enabled(g, s, a)
  {
    match a
    case Call(p, op) => To(s, p, Opening(op))
    case OpenLock(p) => To(s, p, Locked(s.calls[p].op)).(lock := true, holder := Some(p))
    case Retry(_) => s
    case GiveUp(p) => To(s, p, Returned(s.calls[p].op, Failed))
    case Read(p) =>
      var op := s.calls[p].op;
      if s.file.None? then Logged(s, p, op, true, 0, Mismatch) else To(s, p, Compared(op, s.file.value.content))
    case CompareStrong(p) =>
      var Compared(op, content) := s.calls[p];
      To(s, p, if g.strong(content) == op.ifMatch then Matched(op) else Weakly(op))
    case StatWeak(p, statOk) =>
      var op := s.calls[p].op;
      if statOk && s.file.Some? && g.weak(s.file.value) == op.ifMatch then To(s, p, Matched(op))
      else Logged(s, p, op, statOk, 0, Mismatch)
    case DryRun(p) => Logged(s, p, s.calls[p].op, true, 0, DryRunOk)
    case CreateTemp(p) => To(s, p, Writing(s.calls[p].op)).(temps := s.temps[p := Partial])
    case WriteTemp(p) => To(s, p, Ready(s.calls[p].op)).(temps := s.temps[p := Full(s.calls[p].op.data)])
    case Rename(p, mtime) =>
      Logged(s, p, s.calls[p].op, true, mtime, Committed)
        .(file := Some(File(s.temps[p].data, mtime)), temps := s.temps - {p})
    case Fail(p, cleaned) =>
      To(s, p, Releasing(s.calls[p].op, Failed)).(temps := if cleaned then s.temps - {p} else s.temps)
    case Release(p, removed) =>
      // an error of the removal is ignored
      To(s, p, Returned(s.calls[p].op, s.calls[p].outcome))
        .(lock := !removed, holder := if removed then None else Some(p))
    case Crash(p) => To(s, p, Crashed(s.calls[p].op))
  }

  ghost function Exec(g: Tags, file: Option<File>, acts: seq<Action>): Option<State> {
    if acts == [] then Some(Initial(file))
    else
      match Exec(g, file, Init(acts))
      case None => None
      case Some(s) => if Enabled(g, s, Last(acts)) then Some(Fire(g, s, Last(acts))) else None
  }

  // ---- Mutual exclusion ----

  ghost predicate InCriticalSection(s: State, p: int) {
    p in s.calls && !s.calls[p].Opening? && !s.calls[p].Returned? && !s.calls[p].Crashed?
  }

  /** The call will do nothing more. */
  ghost predicate Over(pc: Pc) {
    pc.Crashed? || pc.Returned?
  }

  /** What a call knows about the file because it holds the lock. */
  ghost predicate Knows(g: Tags, s: State, p: int)
    requires p in s.calls
  {
    match s.calls[p]
    case Compared(_, content) => s.file.Some? && s.file.value.content == content
    case Weakly(op) => s.file.Some? && g.strong(s.file.value.content) != op.ifMatch
    case Matched(op) => s.file.Some? && Matches(g, s.file.value, op.ifMatch, true)
    case Writing(op) => s.file.Some? && Matches(g, s.file.value, op.ifMatch, true) && !op.dryRun
    case Ready(op) =>
      && s.file.Some? && Matches(g, s.file.value, op.ifMatch, true) && !op.dryRun
      && p in s.temps && s.temps[p] == Full(op.data)
    case _ => true
  }

  ghost predicate Guarded(g: Tags, s: State) {
    && (s.lock <==> s.holder.Some?)
    && (forall p | InCriticalSection(s, p) :: s.holder == Some(p))
    && (s.holder.Some? ==>
          s.holder.value in s.calls && (InCriticalSection(s, s.holder.value) || Over(s.calls[s.holder.value])))
    && (forall p | p in s.calls :: Knows(g, s, p))
  }

  lemma {:induction false} GuardedKept(g: Tags, s: State, a: Action)
    requires Guarded(g, s) && Enabled(g, s, a)
    ensures Guarded(g, Fire(g, s, a))
  {
    var t := Fire(g, s, a);
    assert !a.Call? ==> Knows(g, s, a.p);
    assert a.Rename? || a.Release? || a.Read? ==> InCriticalSection(s, a.p);
    forall p | InCriticalSection(t, p) ensures t.holder == Some(p) {
      assert p != a.p ==> InCriticalSection(s, p);
    }
    forall p | p in t.calls ensures Knows(g, t, p) {
      if p != a.p {
        assert Knows(g, s, p) && t.calls[p] == s.calls[p];
        if a.Rename? { assert !InCriticalSection(s, p); }
      }
    }
  }

  // ---- The log is the history of the file ----

  /** What a step adds to the log. */
  ghost function Effect(g: Tags, s: State, a: Action): seq<Entry>
    requires Enabled(g, s, a)
  {
    if a.Read? && s.file.None? then [Entry(a.p, s.calls[a.p].op, true, 0, Mismatch)]
    else if a.StatWeak? && Fire(g, s, a).calls[a.p].Releasing? then [Entry(a.p, s.calls[a.p].op, a.statOk, 0, Mismatch)]
    else if a.DryRun? then [Entry(a.p, s.calls[a.p].op, true, 0, DryRunOk)]
    else if a.Rename? then [Entry(a.p, s.calls[a.p].op, true, a.mtime, Committed)]
    else []
  }

  lemma {:induction false} EffectIsLogged(g: Tags, s: State, a: Action)
    requires Enabled(g, s, a)
    ensures Fire(g, s, a).log == s.log + Effect(g, s, a)
  {
    assert s.log + [] == s.log;
  }

  lemma {:induction false} NoEffectNoChange(g: Tags, s: State, a: Action)
    requires Enabled(g, s, a) && Effect(g, s, a) == []
    ensures Fire(g, s, a).file == s.file
  {}

  lemma {:induction false} EffectIsCas(g: Tags, s: State, a: Action)
    requires Guarded(g, s) && Enabled(g, s, a) && Effect(g, s, a) != []
    ensures var e := Effect(g, s, a)[0];
            |Effect(g, s, a)| == 1 && Cas(g, s.file, e.op, e.statOk, e.mtime) == (Fire(g, s, a).file, e.outcome)
  {
    assert Knows(g, s, a.p);
  }

  lemma {:induction false} LegalSnoc(g: Tags, file: Option<File>, log: seq<Entry>, e: Entry)
    requires Legal(g, file, log) && Cas(g, Replay(g, file, log), e.op, e.statOk, e.mtime).1 == e.outcome
    ensures Legal(g, file, log + [e])
    ensures Replay(g, file, log + [e]) == Cas(g, Replay(g, file, log), e.op, e.statOk, e.mtime).0
  {
    assert Init(log + [e]) == log;
  }

  /** What one step did, without the step: at most one entry more, and its effect on the file. */
  lemma {:induction false} HistoryExtended(g: Tags, file: Option<File>, log: seq<Entry>, e: seq<Entry>,
      longer: seq<Entry>, now: Option<File>)
    requires Legal(g, file, log) && longer == log + e && |e| <= 1
    requires e == [] ==> now == Replay(g, file, log)
    requires e != [] ==>
               Cas(g, Replay(g, file, log), e[0].op, e[0].statOk, e[0].mtime) == (now, e[0].outcome)
    ensures Legal(g, file, longer) && Replay(g, file, longer) == now
  {
    if e == [] {
      assert longer == log;
    } else {
      assert e == [e[0]];
      LegalSnoc(g, file, log, e[0]);
    }
  }

  lemma {:induction false} HistoryKept(g: Tags, file: Option<File>, s: State, a: Action)
    requires Guarded(g, s) && Enabled(g, s, a)
    requires Legal(g, file, s.log) && Replay(g, file, s.log) == s.file
    ensures Legal(g, file, Fire(g, s, a).log) && Replay(g, file, Fire(g, s, a).log) == Fire(g, s, a).file
  {
    EffectIsLogged(g, s, a);
    if Effect(g, s, a) == [] {
      NoEffectNoChange(g, s, a);
    } else {
      EffectIsCas(g, s, a);
    }
    HistoryExtended(g, file, s.log, Effect(g, s, a), Fire(g, s, a).log, Fire(g, s, a).file);
  }

  // ---- Each call takes effect at most once, between its start and its return ----

  function Mine(log: seq<Entry>, p: int): seq<Entry> {
    if log == [] then []
    else if Last(log).call == p then Mine(Init(log), p) + [Last(log)]
    else Mine(Init(log), p)
  }

  lemma MineSnoc(log: seq<Entry>, e: Entry)
    ensures forall p :: Mine(log + [e], p) == if e.call == p then Mine(log, p) + [e] else Mine(log, p)
  {
    assert Init(log + [e]) == log;
  }

  /** The entries a call has in the log, given how far it has come. */
  ghost predicate EffectOf(pc: Pc, mine: seq<Entry>) {
    if pc.Crashed? then |mine| <= 1
    else if (pc.Releasing? || pc.Returned?) && pc.outcome != Failed then
      |mine| == 1 && mine[0].op == pc.op && mine[0].outcome == pc.outcome
    else mine == []
  }

  ghost predicate Effects(s: State) {
    && (forall p | p in s.calls :: EffectOf(s.calls[p], Mine(s.log, p)))
    && (forall p | p !in s.calls :: Mine(s.log, p) == [])
  }

  ghost predicate TookEffect(pc: Pc) {
    pc.Crashed? || pc.Releasing? || pc.Returned?
  }

  /** What the step of a call may do to the call itself, when it logs e. */
  ghost predicate OwnStep(from: Pc, to: Pc, p: int, e: seq<Entry>) {
    if e == [] then
      || to == from || to.Crashed?
      || (!TookEffect(from) && (!TookEffect(to) || to.outcome == Failed))
      || (from.Releasing? && to == Returned(from.op, from.outcome))
    else
      && |e| == 1 && !TookEffect(from) && e[0].call == p && e[0].outcome != Failed
      && to == Releasing(e[0].op, e[0].outcome)
  }

  lemma {:induction false} StepIsOwn(g: Tags, s: State, a: Action)
    requires Enabled(g, s, a)
    ensures forall q | q != a.p :: q in Fire(g, s, a).calls <==> q in s.calls
    ensures forall q | q in s.calls && q != a.p :: Fire(g, s, a).calls[q] == s.calls[q]
    ensures a.p in Fire(g, s, a).calls
    ensures if a.p in s.calls then OwnStep(s.calls[a.p], Fire(g, s, a).calls[a.p], a.p, Effect(g, s, a))
            else Effect(g, s, a) == [] && !TookEffect(Fire(g, s, a).calls[a.p])
  {}

  lemma {:induction false} EffectsKept(g: Tags, s: State, a: Action)
    requires Effects(s) && Enabled(g, s, a)
    ensures Effects(Fire(g, s, a))
  {
    hide Enabled, Fire;
    var t := Fire(g, s, a);
    var e := Effect(g, s, a);
    EffectIsLogged(g, s, a);
    StepIsOwn(g, s, a);
    if e == [] {
      assert t.log == s.log;
    } else {
      assert t.log == s.log + [e[0]];
      MineSnoc(s.log, e[0]);
    }
    assert a.p in s.calls ==> EffectOf(s.calls[a.p], Mine(s.log, a.p));
    forall p | p in t.calls ensures EffectOf(t.calls[p], Mine(t.log, p)) {
      if p != a.p {
        assert p in s.calls && t.calls[p] == s.calls[p] && Mine(t.log, p) == Mine(s.log, p);
        assert EffectOf(s.calls[p], Mine(s.log, p));
      }
    }
  }

  // ---- Nothing is in the log that was not called ----

  ghost predicate Asked(s: State, e: Entry) {
    e.call in s.calls && s.calls[e.call].op == e.op
  }

  ghost predicate AllAsked(s: State) {
    forall i | 0 <= i < |s.log| :: Asked(s, s.log[i])
  }

  /** A call keeps its operation, and what a step logs is the operation of its own call. */
  lemma {:induction false} OpsKept(g: Tags, s: State, a: Action)
    requires Enabled(g, s, a)
    ensures forall p | p in s.calls :: p in Fire(g, s, a).calls && Fire(g, s, a).calls[p].op == s.calls[p].op
    ensures forall i | 0 <= i < |Effect(g, s, a)| :: Asked(Fire(g, s, a), Effect(g, s, a)[i])
  {}

  lemma {:induction false} AllAskedKept(g: Tags, s: State, a: Action)
    requires AllAsked(s) && Enabled(g, s, a)
    ensures AllAsked(Fire(g, s, a))
  {
    var t := Fire(g, s, a);
    OpsKept(g, s, a);
    EffectIsLogged(g, s, a);
    forall i | 0 <= i < |t.log| ensures Asked(t, t.log[i]) {
      if i < |s.log| {
        assert t.log[i] == s.log[i] && Asked(s, s.log[i]);
      } else {
        assert t.log[i] == Effect(g, s, a)[i - |s.log|];
      }
    }
  }

  // ---- Every run ----

  ghost predicate Inv(g: Tags, file: Option<File>, s: State) {
    && Guarded(g, s) && Legal(g, file, s.log) && Replay(g, file, s.log) == s.file
    && Effects(s) && AllAsked(s)
  }

  lemma {:induction false} RunKeepsInv(g: Tags, file: Option<File>, acts: seq<Action>)
    requires Exec(g, file, acts).Some?
    ensures Inv(g, file, Exec(g, file, acts).value)
    decreases |acts|
  {
    if acts == [] {
    } else {
      RunKeepsInv(g, file, Init(acts));
      var s := Exec(g, file, Init(acts)).value;
      GuardedKept(g, s, Last(acts));
      HistoryKept(g, file, s, Last(acts));
      EffectsKept(g, s, Last(acts));
      AllAskedKept(g, s, Last(acts));
    }
  }

  /** At most one call is between taking and removing the lock. */
  lemma {:induction false} MutualExclusion(g: Tags, file: Option<File>, acts: seq<Action>, p: int, q: int)
    requires Exec(g, file, acts).Some?
    requires InCriticalSection(Exec(g, file, acts).value, p) && InCriticalSection(Exec(g, file, acts).value, q)
    ensures p == q && Exec(g, file, acts).value.lock
  {
    RunKeepsInv(g, file, acts);
  }

  /** At the instant of a rename the file it replaces has the tag the writer asked for, strong or weak. */
  lemma {:induction false} RenameMatches(g: Tags, file: Option<File>, acts: seq<Action>, p: int, mtime: int)
    requires Exec(g, file, acts).Some? && Enabled(g, Exec(g, file, acts).value, Rename(p, mtime))
    ensures var s := Exec(g, file, acts).value;
            var op := s.calls[p].op;
            && s.file.Some?
            && (g.strong(s.file.value.content) == op.ifMatch || g.weak(s.file.value) == op.ifMatch)
            && Fire(g, s, Rename(p, mtime)).file == Some(File(op.data, mtime))
  {
    RunKeepsInv(g, file, acts);
    assert Knows(g, Exec(g, file, acts).value, p);
  }

  /** A call that finds the lock free and is not disturbed does what one compare-and-swap does: here, one
      whose weak tag can be read, run from its start to its return. */
  lemma {:induction false} SoloCall(g: Tags, file: Option<File>, acts: seq<Action>, p: int, op: Op, mtime: int)
    returns (acts': seq<Action>)
    requires Exec(g, file, acts).Some? && !Exec(g, file, acts).value.lock && p !in Exec(g, file, acts).value.calls
    ensures acts <= acts' && Exec(g, file, acts').Some?
    ensures var s, t := Exec(g, file, acts).value, Exec(g, file, acts').value;
            && p in t.calls && t.calls[p].Returned? && t.calls[p].op == op && !t.lock
            && (t.file, t.calls[p].outcome) == Cas(g, s.file, op, true, mtime)
  {
    var s := Exec(g, file, acts).value;
    var locked := acts + [Call(p, op)] + [OpenLock(p)] + [Read(p)];
    StepOn(g, file, acts, Call(p, op));
    StepOn(g, file, acts + [Call(p, op)], OpenLock(p));
    StepOn(g, file, acts + [Call(p, op)] + [OpenLock(p)], Read(p));
    if s.file.None? {
      acts' := locked + [Release(p, true)];
      StepOn(g, file, locked, Release(p, true));
    } else {
      acts' := SoloCompare(g, file, locked, p, op, mtime);
    }
  }

  lemma {:induction false} StepOn(g: Tags, file: Option<File>, acts: seq<Action>, a: Action)
    requires Exec(g, file, acts).Some? && Enabled(g, Exec(g, file, acts).value, a)
    ensures Exec(g, file, acts + [a]) == Some(Fire(g, Exec(g, file, acts).value, a))
  {
    assert Init(acts + [a]) == acts;
  }

  lemma {:induction false} SoloCompare(g: Tags, file: Option<File>, acts: seq<Action>, p: int, op: Op, mtime: int)
    returns (acts': seq<Action>)
    requires Exec(g, file, acts).Some? && p in Exec(g, file, acts).value.calls
    requires var s := Exec(g, file, acts).value; s.file.Some? && s.calls[p] == Compared(op, s.file.value.content)
    ensures acts <= acts' && Exec(g, file, acts').Some?
    ensures var s, t := Exec(g, file, acts).value, Exec(g, file, acts').value;
            && p in t.calls && t.calls[p].Returned? && t.calls[p].op == op && !t.lock
            && (t.file, t.calls[p].outcome) == Cas(g, s.file, op, true, mtime)
  {
    var s := Exec(g, file, acts).value;
    StepOn(g, file, acts, CompareStrong(p));
    var compared := acts + [CompareStrong(p)];
    if g.strong(s.file.value.content) != op.ifMatch {
      StepOn(g, file, compared, StatWeak(p, true));
      compared := compared + [StatWeak(p, true)];
    }
    if Exec(g, file, compared).value.calls[p].Matched? {
      acts' := SoloReplace(g, file, compared, p, op, mtime);
    } else {
      StepOn(g, file, compared, Release(p, true));
      acts' := compared + [Release(p, true)];
    }
  }

  lemma {:induction false} SoloReplace(g: Tags, file: Option<File>, acts: seq<Action>, p: int, op: Op, mtime: int)
    returns (acts': seq<Action>)
    requires Exec(g, file, acts).Some? && p in Exec(g, file, acts).value.calls
    requires Exec(g, file, acts).value.calls[p] == Matched(op)
    ensures acts <= acts' && Exec(g, file, acts').Some?
    ensures var s, t := Exec(g, file, acts).value, Exec(g, file, acts').value;
            && p in t.calls && t.calls[p].Returned? && t.calls[p].op == op && !t.lock
            && t.calls[p].outcome == (if op.dryRun then DryRunOk else Committed)
            && t.file == if op.dryRun then s.file else Some(File(op.data, mtime))
  {
    acts' := acts;
    if op.dryRun {
      StepOn(g, file, acts', DryRun(p));
      acts' := acts' + [DryRun(p)];
    } else {
      StepOn(g, file, acts', CreateTemp(p));
      acts' := acts' + [CreateTemp(p)];
      StepOn(g, file, acts', WriteTemp(p));
      acts' := acts' + [WriteTemp(p)];
      StepOn(g, file, acts', Rename(p, mtime));
      acts' := acts' + [Rename(p, mtime)];
    }
    StepOn(g, file, acts', Release(p, true));
    acts' := acts' + [Release(p, true)];
  }

  /** The operations in the order of the log are a legal sequential history of compare-and-swap
      that ends in the actual file. Each of them is the operation of a call that was made, and no
      call is in it twice, crashed calls included; every call that returned an answer is in it
      exactly once, with that answer, and calls that failed are not in it at all. */
  lemma {:induction false} Linearizable(g: Tags, file: Option<File>, acts: seq<Action>)
    requires Exec(g, file, acts).Some?
    ensures var s := Exec(g, file, acts).value;
            && Legal(g, file, s.log) && Replay(g, file, s.log) == s.file
            && (forall i | 0 <= i < |s.log| ::
                  s.log[i].call in s.calls && s.log[i].op == s.calls[s.log[i].call].op)
            && (forall p | p in s.calls :: |Mine(s.log, p)| <= 1)
            && (forall p | p in s.calls && s.calls[p].Returned? ::
                  if s.calls[p].outcome == Failed then Mine(s.log, p) == []
                  else |Mine(s.log, p)| == 1 && Mine(s.log, p)[0].op == s.calls[p].op
                       && Mine(s.log, p)[0].outcome == s.calls[p].outcome)
  {
    RunKeepsInv(g, file, acts);
    var s := Exec(g, file, acts).value;
    assert forall p | p in s.calls :: EffectOf(s.calls[p], Mine(s.log, p));
    assert forall i | 0 <= i < |s.log| :: Asked(s, s.log[i]);
  }

  lemma {:induction false} LogOnlyGrows(g: Tags, file: Option<File>, before: seq<Action>, acts: seq<Action>)
    requires before <= acts && Exec(g, file, acts).Some?
    ensures Exec(g, file, before).Some? && Exec(g, file, before).value.log <= Exec(g, file, acts).value.log
    decreases |acts|
  {
    if acts == before {
    } else {
      assert before <= Init(acts);
      LogOnlyGrows(g, file, before, Init(acts));
      EffectIsLogged(g, Exec(g, file, Init(acts)).value, Last(acts));
    }
  }

  /** The order of the log respects real time: when q starts after p has returned, p's
      operation lies in the part of the log that was there, and q's does not. */
  lemma {:induction false} RealTimeOrder(g: Tags, file: Option<File>, before: seq<Action>, acts: seq<Action>, p: int, q: int)
    requires before <= acts && Exec(g, file, acts).Some? && Exec(g, file, before).Some?
    requires var s := Exec(g, file, before).value;
             p in s.calls && s.calls[p].Returned? && s.calls[p].outcome != Failed && q !in s.calls
    ensures var s, t := Exec(g, file, before).value, Exec(g, file, acts).value;
            s.log <= t.log && |Mine(s.log, p)| == 1 && Mine(s.log, q) == []
  {
    LogOnlyGrows(g, file, before, acts);
    RunKeepsInv(g, file, before);
    assert EffectOf(Exec(g, file, before).value.calls[p], Mine(Exec(g, file, before).value.log, p));
  }

  // ---- Consequences ----

  lemma {:induction false} LegalAt(g: Tags, file: Option<File>, log: seq<Entry>, i: int)
    requires Legal(g, file, log) && 0 <= i < |log|
    ensures Cas(g, Replay(g, file, log[..i]), log[i].op, log[i].statOk, log[i].mtime) ==
            (Replay(g, file, log[..i + 1]), log[i].outcome)
    decreases |log|
  {
    if i == |log| - 1 {
      assert log[..i] == Init(log) && log[..i + 1] == log;
    } else {
      LegalAt(g, file, Init(log), i);
      assert Init(log)[..i] == log[..i] && Init(log)[..i + 1] == log[..i + 1];
    }
  }

  /** Only a commit changes the file. */
  lemma {:induction false} UnchangedWithoutCommit(g: Tags, file: Option<File>, log: seq<Entry>, i: int, j: int)
    requires Legal(g, file, log) && 0 <= i <= j <= |log|
    requires forall m | i <= m < j :: log[m].outcome != Committed
    ensures Replay(g, file, log[..i]) == Replay(g, file, log[..j])
    decreases j - i
  {
    if i >= j {
    } else {
      UnchangedWithoutCommit(g, file, log, i, j - 1);
      LegalAt(g, file, log, j - 1);
    }
  }

  /** Two writers that asked for the same tag both committed: then, before the second one,
      some commit left a file that has this tag again. */
  lemma {:induction false} SameTagTwice(g: Tags, file: Option<File>, log: seq<Entry>, i: int, j: int) returns (m: int)
    requires Legal(g, file, log) && 0 <= i < j < |log|
    requires log[i].outcome == Committed && log[j].outcome == Committed
    requires log[i].op.ifMatch == log[j].op.ifMatch
    ensures i <= m < j && log[m].outcome == Committed
    ensures var f := File(log[m].op.data, log[m].mtime);
            g.strong(f.content) == log[j].op.ifMatch || (log[j].statOk && g.weak(f) == log[j].op.ifMatch)
  {
    m := j - 1;
    while log[m].outcome != Committed
      invariant i <= m < j
      invariant forall k | m < k < j :: log[k].outcome != Committed
      decreases m
    {
      m := m - 1;
    }
    LegalAt(g, file, log, m);
    LegalAt(g, file, log, j);
    UnchangedWithoutCommit(g, file, log, m + 1, j);
  }

  /** With a strong tag that identifies the content, the commit in between wrote back the very
      content the first writer had replaced. */
  lemma {:induction false} StrongTagMeansRestored(g: Tags, file: Option<File>, log: seq<Entry>, i: int, j: int)
    requires Legal(g, file, log) && 0 <= i < j < |log|
    requires log[i].outcome == Committed && log[j].outcome == Committed
    requires log[i].op.ifMatch == log[j].op.ifMatch
    requires (forall x, y :: g.strong(x) == g.strong(y) ==> x == y) && forall x, f :: g.weak(f) != g.strong(x)
    requires exists x :: g.strong(x) == log[i].op.ifMatch
    ensures Replay(g, file, log[..i]).Some?
    ensures exists m :: i <= m < j && log[m].outcome == Committed
                        && log[m].op.data == Replay(g, file, log[..i]).value.content
  {
    var m := SameTagTwice(g, file, log, i, j);
    LegalAt(g, file, log, i);
    var x :| g.strong(x) == log[i].op.ifMatch;
    var prior := Replay(g, file, log[..i]).value;
    assert g.weak(prior) != g.strong(x) && g.weak(File(log[m].op.data, log[m].mtime)) != g.strong(x);
    assert g.strong(log[m].op.data) == g.strong(x) == g.strong(prior.content);
  }

  /** The file is never torn: it is the initial one or holds the whole data of one commit. */
  lemma {:induction false} NeverTorn(g: Tags, file: Option<File>, log: seq<Entry>)
    requires Legal(g, file, log)
    ensures var now := Replay(g, file, log);
            now == file ||
            exists i :: 0 <= i < |log| && log[i].outcome == Committed && now == Some(File(log[i].op.data, log[i].mtime))
    decreases |log|
  {
    if log == [] {
    } else {
      NeverTorn(g, file, Init(log));
      var now, before := Replay(g, file, log), Replay(g, file, Init(log));
      if Last(log).outcome == Committed {
        assert log[|log| - 1].outcome == Committed;
      } else if before != file {
        var i :| 0 <= i < |Init(log)| && Init(log)[i].outcome == Committed &&
                 before == Some(File(Init(log)[i].op.data, Init(log)[i].mtime));
        assert log[i] == Init(log)[i];
      }
    }
  }

  lemma {:induction false} CommitWasNoDryRun(g: Tags, file: Option<File>, log: seq<Entry>, i: int)
    requires Legal(g, file, log) && 0 <= i < |log| && log[i].outcome == Committed
    ensures !log[i].op.dryRun
  {
    LegalAt(g, file, log, i);
  }

  /** In every run, however many writers crashed, the file is the initial one or holds the whole
      data that some call was made with, and never that of a dry run. */
  lemma {:induction false} FileIsSomeonesData(g: Tags, file: Option<File>, acts: seq<Action>)
    requires Exec(g, file, acts).Some?
    ensures var s := Exec(g, file, acts).value;
            s.file == file ||
            exists p :: p in s.calls && !s.calls[p].op.dryRun
                        && s.file.Some? && s.file.value.content == s.calls[p].op.data
  {
    RunKeepsInv(g, file, acts);
    var s := Exec(g, file, acts).value;
    NeverTorn(g, file, s.log);
    if s.file != file {
      var i :| 0 <= i < |s.log| && s.log[i].outcome == Committed &&
               s.file == Some(File(s.log[i].op.data, s.log[i].mtime));
      assert Asked(s, s.log[i]);
      CommitWasNoDryRun(g, file, s.log, i);
      assert s.log[i].call in s.calls && !s.calls[s.log[i].call].op.dryRun;
    }
  }

  /** A writer that stops while holding the lock, or that could not remove it, leaves it behind for
      good: from then on the file stays as it is. */
  lemma {:induction false} StaleLockFreezesFile(g: Tags, file: Option<File>, before: seq<Action>, acts: seq<Action>)
    requires before <= acts && Exec(g, file, acts).Some? && Exec(g, file, before).Some?
    requires var s := Exec(g, file, before).value;
             s.holder.Some? && s.holder.value in s.calls && Over(s.calls[s.holder.value])
    ensures var s, t := Exec(g, file, before).value, Exec(g, file, acts).value;
            && t.file == s.file && t.log == s.log && t.holder == s.holder && t.lock
            && s.holder.value in t.calls && t.calls[s.holder.value] == s.calls[s.holder.value]
    decreases |acts|
  {
    RunKeepsInv(g, file, before);
    if acts == before {
    } else {
      assert before <= Init(acts) && Exec(g, file, Init(acts)).Some?;
      StaleLockFreezesFile(g, file, before, Init(acts));
      RunKeepsInv(g, file, Init(acts));
      var s, a := Exec(g, file, Init(acts)).value, Last(acts);
      assert !a.Call? ==> !InCriticalSection(s, a.p);
    }
  }
}
