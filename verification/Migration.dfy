/** Copying a bucket to another backend: handlers run concurrently, in any interleaving. */
module Migration {
  import opened Wrappers

  datatype Object = Object(data: seq<nat>, contentType: Option<string>, metadata: map<string, string>)

  type Bucket = map<string, Object>

  const DEFAULT_TYPE := "application/octet-stream"

  /** What is put for a source object: everything but a missing content type is kept. */
  function CopyOf(o: Object): Object {
    var given := o.contentType.Some? && o.contentType.value != "";
    o.(contentType := Some(if given then o.contentType.value else DEFAULT_TYPE))
  }

  /** A copy has the bytes, the metadata and the content type of the object, binary data
      when that is missing or empty. */
  predicate Carries(copy: Object, o: Object) {
    && copy.data == o.data && copy.metadata == o.metadata
    && match o.contentType
       case None => copy.contentType == Some("application/octet-stream")
       case Some("") => copy.contentType == Some("application/octet-stream")
       case Some(given) => copy.contentType == Some(given)
  }

  lemma CopyCarries(o: Object)
    ensures Carries(CopyOf(o), o)
  {
  }

  datatype Outcome = Copied | Skipped | Failed

  /** How far a handler is with its key; its outcome is known before it is counted. */
  datatype Phase = Submitted | Needed | Fetched(taken: Object) | Ended(outcome: Outcome) | Counted(outcome: Outcome)

  datatype Stats = Stats(scanned: nat, copied: nat, skipped: nat, bytesCopied: nat, errors: nat)

  datatype State = State(dest: Bucket, phases: map<string, Phase>, stats: Stats)

  /** The source does not change while it is copied. */
  datatype Job = Job(source: Bucket, overwrite: bool)

  /** One atomic action of the lister or of the handler of a key; any call to a backend
      may fail instead. */
  datatype Action =
    | Submit(key: string)
    | Look(key: string)
    | Fetch(key: string)
    | Put(key: string)
    | Fail(key: string)
    | Count(key: string)

  predicate Enabled(j: Job, s: State, a: Action) {
    match a
    case Submit(k) => k in j.source && k !in s.phases
    case Look(k) => k in s.phases && s.phases[k].Submitted?
    case Fetch(k) => k in s.phases && s.phases[k].Needed?
    case Put(k) => k in s.phases && s.phases[k].Fetched?
    case Fail(k) => k in s.phases && (s.phases[k].Submitted? || s.phases[k].Needed? || s.phases[k].Fetched?)
    case Count(k) => k in s.phases && s.phases[k].Ended?
  }

  function Present(j: Job, dest: Bucket, key: string): bool
    requires key in j.source
  {
    key in dest && |dest[key].data| == |j.source[key].data|
  }

  function Tallied(stats: Stats, outcome: Outcome, size: nat): Stats {
    match outcome
    case Copied => stats.(copied := stats.copied + 1, bytesCopied := stats.bytesCopied + size)
    case Skipped => stats.(skipped := stats.skipped + 1)
    case Failed => stats.(errors := stats.errors + 1)
  }

  function After(j: Job, s: State, a: Action): State
    requires Enabled(j, s, a) && s.phases.Keys <= j.source.Keys
  {
    match a
    case Submit(k) => s.(phases := s.phases[k := Submitted], stats := s.stats.(scanned := s.stats.scanned + 1))
    case Look(k) =>
      s.(phases := s.phases[k := if !j.overwrite && Present(j, s.dest, k) then Ended(Skipped) else Needed])
    case Fetch(k) => s.(phases := s.phases[k := Fetched(j.source[k])])
    case Put(k) =>
      s.(dest := s.dest[k := CopyOf(s.phases[k].taken)], phases := s.phases[k := Ended(Copied)])
    case Fail(k) => s.(phases := s.phases[k := Ended(Failed)])
    case Count(k) =>
      s.(phases := s.phases[k := Counted(s.phases[k].outcome)],
         stats := Tallied(s.stats, s.phases[k].outcome, |j.source[k].data|))
  }

  function Started(dest: Bucket): State { State(dest, map[], Stats(0, 0, 0, 0, 0)) }

  ghost predicate Run(j: Job, states: seq<State>, actions: seq<Action>) {
    && |states| == |actions| + 1
    && forall i | 0 <= i < |actions| ::
         states[i].phases.Keys <= j.source.Keys && Enabled(j, states[i], actions[i])
         && states[i + 1] == After(j, states[i], actions[i])
  }

  // ---- Invariants ---------------------------------------------------------------------

  function InPhase(s: State, outcome: Outcome): set<string> {
    set k | k in s.phases && s.phases[k] == Counted(outcome)
  }

  function Open(s: State): set<string> {
    set k | k in s.phases && !s.phases[k].Counted?
  }

  /** The counters are the numbers of handlers that ended each way, and every scanned
      key is counted once or still open. */
  ghost predicate CountsRight(s: State) {
    && s.stats.copied == |InPhase(s, Copied)| && s.stats.skipped == |InPhase(s, Skipped)|
    && s.stats.errors == |InPhase(s, Failed)| && s.stats.scanned == |s.phases.Keys|
    && s.stats.scanned == s.stats.copied + s.stats.skipped + s.stats.errors + |Open(s)|
  }

  /** What each handler has done so far, from the destination the run began with. */
  ghost predicate KeyRight(j: Job, start: Bucket, s: State, k: string)
    requires k in j.source
  {
    if k !in s.phases then Untouched(start, s.dest, k)
    else match s.phases[k]
      case Ended(Copied) => k in s.dest && s.dest[k] == CopyOf(j.source[k])
      case Counted(Copied) => k in s.dest && s.dest[k] == CopyOf(j.source[k])
      case Ended(Skipped) => !j.overwrite && Present(j, start, k) && k in s.dest && s.dest[k] == start[k]
      case Counted(Skipped) => !j.overwrite && Present(j, start, k) && k in s.dest && s.dest[k] == start[k]
      case Needed => Untouched(start, s.dest, k) && (j.overwrite || !Present(j, start, k))
      case Fetched(o) => Untouched(start, s.dest, k) && o == j.source[k] && (j.overwrite || !Present(j, start, k))
      case _ => Untouched(start, s.dest, k)
  }

  ghost predicate Untouched(start: Bucket, dest: Bucket, k: string) {
    (k in dest <==> k in start) && (k in start ==> dest[k] == start[k])
  }

  ghost predicate Inv(j: Job, start: Bucket, s: State) {
    && s.phases.Keys <= j.source.Keys
    && (forall k | k in j.source :: KeyRight(j, start, s, k))
    && forall k | k !in j.source :: Untouched(start, s.dest, k)
  }

  /** One of the keys. */
  ghost function Chosen(source: Bucket, keys: set<string>): string
    requires keys != {} && keys <= source.Keys
  {
    var k :| k in keys && k in source;
    k
  }

  /** The bytes of these objects together. */
  ghost function SizeOf(source: Bucket, keys: set<string>): nat
    requires keys <= source.Keys
  {
    if keys == {} then 0
    else
      var k := Chosen(source, keys);
      |source[k].data| + SizeOf(source, keys - {k})
  }

  lemma {:induction false} SizeOfMore(source: Bucket, keys: set<string>, k: string)
    requires keys <= source.Keys && k in source && k !in keys
    ensures SizeOf(source, keys + {k}) == SizeOf(source, keys) + |source[k].data|
    decreases keys
  {
    var more := keys + {k};
    var first := Chosen(source, more);
    if first == k {
      assert more - {k} == keys;
    } else {
      assert more - {first} == keys - {first} + {k};
      SizeOfMore(source, keys - {first}, k);
      SizeOfLess(source, keys, first);
    }
  }

  lemma {:induction false} SizeOfLess(source: Bucket, keys: set<string>, k: string)
    requires keys <= source.Keys && k in keys
    ensures SizeOf(source, keys) == SizeOf(source, keys - {k}) + |source[k].data|
    decreases keys
  {
    var first := Chosen(source, keys);
    if first != k {
      SizeOfLess(source, keys - {first}, k);
      SizeOfLess(source, keys - {k}, first);
      assert keys - {first} - {k} == keys - {k} - {first};
    }
  }

  /** The bytes counted are those of the objects copied. */
  ghost predicate BytesRight(j: Job, s: State) {
    InPhase(s, Copied) <= j.source.Keys && s.stats.bytesCopied == SizeOf(j.source, InPhase(s, Copied))
  }

  lemma StepKeepsBytes(j: Job, s: State, a: Action)
    requires s.phases.Keys <= j.source.Keys && BytesRight(j, s) && Enabled(j, s, a)
    ensures BytesRight(j, After(j, s, a))
  {
    hide InPhase, Present, SizeOf;
    var t, k := After(j, s, a), a.key;
    var phase := t.phases[k];
    assert t.phases == s.phases[k := phase];
    PhaseMoves(s, t, k, phase, Copied);
    if phase == Counted(Copied) {
      SizeOfMore(j.source, InPhase(s, Copied), k);
    } else {
      assert InPhase(s, Copied) + {} == InPhase(s, Copied);
    }
  }

  lemma StepKeepsInv(j: Job, start: Bucket, s: State, a: Action)
    requires Inv(j, start, s) && Enabled(j, s, a)
    ensures Inv(j, start, After(j, s, a))
  {
    var t := After(j, s, a);
    assert KeyRight(j, start, s, a.key);
    forall k | k in j.source
      ensures KeyRight(j, start, t, k)
    {
      assert KeyRight(j, start, s, k);
    }
  }

  /** The phase of one key moves on. */
  lemma PhaseMoves(s: State, t: State, k: string, phase: Phase, o: Outcome)
    requires t.phases == s.phases[k := phase] && (k in s.phases ==> !s.phases[k].Counted?)
    ensures InPhase(t, o) == InPhase(s, o) + if phase == Counted(o) then {k} else {}
    ensures k !in InPhase(s, o)
  {
  }

  lemma OpenMoves(s: State, t: State, k: string, phase: Phase)
    requires t.phases == s.phases[k := phase]
    ensures Open(t) == if phase.Counted? then Open(s) - {k} else Open(s) + {k}
    ensures k in Open(s) <==> k in s.phases && !s.phases[k].Counted?
    ensures t.phases.Keys == s.phases.Keys + {k}
  {
  }

  /** How many handlers ended a way, after one more is counted. */
  lemma InPhaseCount(s: State, t: State, k: string, phase: Phase, o: Outcome)
    requires t.phases == s.phases[k := phase] && (k in s.phases ==> !s.phases[k].Counted?)
    ensures |InPhase(t, o)| == |InPhase(s, o)| + if phase == Counted(o) then 1 else 0
  {
    PhaseMoves(s, t, k, phase, o);
  }

  lemma OpenCount(s: State, t: State, k: string, phase: Phase)
    requires t.phases == s.phases[k := phase] && (k in s.phases ==> !s.phases[k].Counted?)
    requires phase.Counted? ==> k in s.phases
    ensures |Open(t)| == |Open(s)| + (if k in s.phases then 0 else 1) - (if phase.Counted? then 1 else 0)
    ensures |t.phases.Keys| == |s.phases.Keys| + if k in s.phases then 0 else 1
  {
    OpenMoves(s, t, k, phase);
    assert k in s.phases ==> t.phases.Keys == s.phases.Keys && Open(s) + {k} == Open(s);
  }

  lemma StepKeepsCounts(j: Job, s: State, a: Action)
    requires s.phases.Keys <= j.source.Keys && CountsRight(s) && Enabled(j, s, a)
    ensures CountsRight(After(j, s, a))
  {
    hide InPhase, Open, Present;
    var t, k := After(j, s, a), a.key;
    var phase := t.phases[k];
    assert t.phases == s.phases[k := phase];
    OpenCount(s, t, k, phase);
    InPhaseCount(s, t, k, phase, Copied);
    InPhaseCount(s, t, k, phase, Skipped);
    InPhaseCount(s, t, k, phase, Failed);
  }

  lemma {:induction false} RunKeeps(j: Job, states: seq<State>, actions: seq<Action>, i: nat)
    requires Run(j, states, actions) && i <= |actions| && states[0] == Started(states[0].dest)
    ensures Inv(j, states[0].dest, states[i]) && CountsRight(states[i]) && BytesRight(j, states[i])
  {
    hide After, Enabled, Inv, CountsRight, BytesRight;
    if i == 0 {
      StartKeeps(j, states[0].dest);
    } else {
      RunKeeps(j, states, actions, i - 1);
      assert Enabled(j, states[i - 1], actions[i - 1]);
      StepKeepsInv(j, states[0].dest, states[i - 1], actions[i - 1]);
      StepKeepsCounts(j, states[i - 1], actions[i - 1]);
      StepKeepsBytes(j, states[i - 1], actions[i - 1]);
    }
  }

  lemma StartKeeps(j: Job, dest: Bucket)
    ensures Inv(j, dest, Started(dest)) && CountsRight(Started(dest)) && BytesRight(j, Started(dest))
  {
    var s := Started(dest);
    assert Open(s) == {} && forall o :: InPhase(s, o) == {};
  }

  /** Every listed key submitted, every handler done. */
  ghost predicate Finished(j: Job, listed: set<string>, s: State) {
    s.phases.Keys == listed && Open(s) == {}
  }

  /** At every moment the counters add up to what was scanned, but for open handlers, and
      the bytes counted are those of the objects counted as copied. */
  lemma CountersAddUp(j: Job, states: seq<State>, actions: seq<Action>, i: nat)
    requires Run(j, states, actions) && i <= |actions| && states[0] == Started(states[0].dest)
    ensures var t := states[i].stats;
            var copied := set k | k in states[i].phases && states[i].phases[k] == Counted(Copied);
            && t.scanned == t.copied + t.skipped + t.errors + |Open(states[i])|
            && t.copied == |copied| && copied <= j.source.Keys && t.bytesCopied == SizeOf(j.source, copied)
  {
    RunKeeps(j, states, actions, i);
    assert InPhase(states[i], Copied) == set k | k in states[i].phases && states[i].phases[k] == Counted(Copied);
  }

  /** A finished run without errors leaves every listed key in the destination: without
      overwrite one that was there at the source's size as it was, any other with the
      source's bytes, metadata and content type; no other key is touched. */
  lemma ErrorFreeCopiesAll(j: Job, states: seq<State>, actions: seq<Action>, listed: set<string>)
    requires Run(j, states, actions) && states[0] == Started(states[0].dest)
    requires Finished(j, listed, states[|actions|]) && states[|actions|].stats.errors == 0
    ensures listed <= j.source.Keys
    ensures forall k | k in listed ::
              && k in states[|actions|].dest && |states[|actions|].dest[k].data| == |j.source[k].data|
              && if !j.overwrite && k in states[0].dest && |states[0].dest[k].data| == |j.source[k].data|
                 then states[|actions|].dest[k] == states[0].dest[k]
                 else Carries(states[|actions|].dest[k], j.source[k])
    ensures forall k | k !in listed :: Untouched(states[0].dest, states[|actions|].dest, k)
  {
    var s, start := states[|actions|], states[0].dest;
    RunKeeps(j, states, actions, |actions|);
    forall k | k in listed
      ensures Present(j, s.dest, k)
      ensures if !j.overwrite && Present(j, start, k) then s.dest[k] == start[k] else Carries(s.dest[k], j.source[k])
    {
      assert KeyRight(j, start, s, k);
      assert k !in Open(s) && k !in InPhase(s, Failed);
      CopyCarries(j.source[k]);
      if !j.overwrite && Present(j, start, k) {
        CopiedWasNeeded(j, states, actions, |actions|, k);
      }
    }
    forall k | k !in listed
      ensures Untouched(start, s.dest, k)
    {
      if k in j.source {
        assert KeyRight(j, start, s, k);
      }
    }
  }

  lemma CopiedWasNeeded(j: Job, states: seq<State>, actions: seq<Action>, i: nat, k: string)
    requires Run(j, states, actions) && i <= |actions| && states[0] == Started(states[0].dest) && !j.overwrite
    requires k in j.source && Present(j, states[0].dest, k)
    ensures k in states[i].phases ==> states[i].phases[k] != Counted(Copied)
  {
    PresentIsNeverCopied(j, states, actions, i, k);
  }

  /** Without overwrite, a key that is there at the right size is never copied. */
  lemma PresentIsNeverCopied(j: Job, states: seq<State>, actions: seq<Action>, i: nat, k: string)
    requires Run(j, states, actions) && i <= |actions| && states[0] == Started(states[0].dest) && !j.overwrite
    requires k in j.source && Present(j, states[0].dest, k)
    ensures k in states[i].phases ==>
              states[i].phases[k] in {Submitted, Ended(Skipped), Counted(Skipped), Ended(Failed), Counted(Failed)}
    decreases i
  {
    hide Present, Inv, CountsRight;
    if i > 0 {
      PresentIsNeverCopied(j, states, actions, i - 1, k);
      RunKeeps(j, states, actions, i - 1);
      StillPresent(j, states[0].dest, states[i - 1], k);
    }
  }

  lemma StillPresent(j: Job, start: Bucket, s: State, k: string)
    requires Inv(j, start, s) && k in j.source && Present(j, start, k)
    ensures k in s.phases && s.phases[k].Submitted? ==> Present(j, s.dest, k)
  {
    assert KeyRight(j, start, s, k);
  }

  /** A second run without overwrite, after an error-free one, copies nothing and leaves
      the destination as it is. */
  lemma SecondRunCopiesNothing(j: Job, states: seq<State>, actions: seq<Action>, i: nat)
    requires Run(j, states, actions) && i <= |actions| && states[0] == Started(states[0].dest) && !j.overwrite
    requires forall k | k in j.source :: Present(j, states[0].dest, k)
    ensures states[i].stats.copied == 0 && states[i].dest == states[0].dest
  {
    var s, start := states[i], states[0].dest;
    RunKeeps(j, states, actions, i);
    forall k
      ensures Untouched(start, s.dest, k) && k !in InPhase(s, Copied)
    {
      if k in j.source {
        PresentIsNeverCopied(j, states, actions, i, k);
        assert KeyRight(j, start, s, k);
      }
    }
    assert InPhase(s, Copied) == {};
    AllUntouched(start, s.dest);
  }

  lemma AllUntouched(start: Bucket, dest: Bucket)
    requires forall k :: Untouched(start, dest, k)
    ensures dest == start
  {
    forall k
      ensures (k in dest <==> k in start) && (k in start ==> dest[k] == start[k])
    {
      assert Untouched(start, dest, k);
    }
    assert dest.Keys == start.Keys;
  }

  // ---- The loop, drained in batches ---------------------------------------------------------

  class StorageBackend {
    var objects: Bucket

    constructor (objects: Bucket)
      ensures this.objects == objects
    {
      this.objects := objects;
    }
  }

  function Listed(source: Bucket, prefix: string): set<string> { set k | k in source && prefix <= k }

  /** A key whose handler is done: left alone when it failed, else there at the right
      size, and written only when that was called for. */
  ghost predicate Settled(j: Job, start: Bucket, dest: Bucket, k: string, failed: bool)
    requires k in j.source
  {
    if failed then Untouched(start, dest, k)
    else if !j.overwrite && Present(j, start, k) then Untouched(start, dest, k)
    else k in dest && dest[k] == CopyOf(j.source[k])
  }

  predicate SizedAs(dest: Bucket, key: string, size: nat) { key in dest && |dest[key].data| == size }

  /** The key was listed with a size; by now the object may be gone from the source. Any
      call may fail; a put that fails writes nothing. */
  method CopyOne(source: Bucket, key: string, listed: nat, overwrite: bool, dest: StorageBackend)
    returns (outcome: Outcome, size: nat)
    modifies dest
    ensures outcome.Copied? ==>
              && key in source && (overwrite || !SizedAs(old(dest.objects), key, listed))
              && key in dest.objects && Carries(dest.objects[key], source[key]) && size == |source[key].data|
              && dest.objects == old(dest.objects)[key := CopyOf(source[key])]
    ensures !outcome.Copied? ==> dest.objects == old(dest.objects) && size == 0
    ensures outcome.Skipped? ==> (!overwrite && SizedAs(old(dest.objects), key, listed)) || key !in source
  {
    var broken := *;
    size := 0;
    if broken {
      return Failed, 0;
    }
    if !overwrite && SizedAs(dest.objects, key, listed) {
      return Skipped, 0;
    }
    if key !in source {
      return Skipped, 0;
    }
    var taken := source[key];
    broken := *;
    if broken {
      return Failed, 0;
    }
    CopyCarries(taken);
    dest.objects := dest.objects[key := CopyOf(taken)];
    outcome, size := Copied, |taken.data|;
  }

  ghost predicate KeysRight(j: Job, start: Bucket, dest: Bucket, done: set<string>, failed: set<string>) {
    && done <= j.source.Keys && failed <= done
    && (forall k | k in done :: Settled(j, start, dest, k, k in failed))
    && (forall k | k !in done :: Untouched(start, dest, k))
  }

  /** The keys handled without failure that were not there at the right size. */
  ghost function CopiedKeys(j: Job, start: Bucket, done: set<string>, failed: set<string>): set<string>
    requires done <= j.source.Keys
  {
    set k | k in done && k !in failed
            && (j.overwrite || k !in start || |start[k].data| != |j.source[k].data|)
  }

  ghost predicate SumsRight(j: Job, start: Bucket, done: set<string>, failed: set<string>, stats: Stats) {
    && done <= j.source.Keys
    && stats.copied + stats.skipped + stats.errors == |done| && stats.errors == |failed|
    && stats.copied == |CopiedKeys(j, start, done, failed)|
    && stats.bytesCopied == SizeOf(j.source, CopiedKeys(j, start, done, failed))
  }

  ghost predicate Progress(j: Job, start: Bucket, dest: Bucket, done: set<string>, failed: set<string>, stats: Stats) {
    KeysRight(j, start, dest, done, failed) && SumsRight(j, start, done, failed, stats)
  }

  lemma NothingYet(j: Job, start: Bucket)
    ensures Progress(j, start, start, {}, {}, Stats(0, 0, 0, 0, 0))
  {
  }

  lemma ScannedAside(j: Job, start: Bucket, dest: Bucket, done: set<string>, failed: set<string>, stats: Stats)
    requires Progress(j, start, dest, done, failed, stats)
    ensures Progress(j, start, dest, done, failed, stats.(scanned := stats.scanned + 1))
  {
  }

  method Handle(j: Job, key: string, dest: StorageBackend, stats: Stats,
                ghost start: Bucket, ghost done: set<string>, ghost failed: set<string>)
    returns (counted: Stats, ghost failures: set<string>)
    requires key in j.source && key !in done && Progress(j, start, dest.objects, done, failed, stats)
    modifies dest
    ensures Progress(j, start, dest.objects, done + {key}, failures, counted) && counted.scanned == stats.scanned
  {
    hide Progress;
    var outcome, size := CopyOne(j.source, key, |j.source[key].data|, j.overwrite, dest);
    counted := Tallied(stats, outcome, size);
    failures := if outcome.Failed? then failed + {key} else failed;
    OneHandled(j, start, old(dest.objects), dest.objects, done, failed, stats, key, outcome, size);
  }

  lemma OneHandled(j: Job, start: Bucket, before: Bucket, after: Bucket, done: set<string>, failed: set<string>,
                   stats: Stats,
                   key: string, outcome: Outcome, size: nat)
    requires key in j.source && key !in done && Progress(j, start, before, done, failed, stats)
    requires after == if outcome.Copied? then before[key := CopyOf(j.source[key])] else before
    requires outcome.Skipped? ==> !j.overwrite && Present(j, before, key)
    requires outcome.Copied? ==> (j.overwrite || !Present(j, before, key)) && size == |j.source[key].data|
    ensures Progress(j, start, after, done + {key}, if outcome.Failed? then failed + {key} else failed,
                     Tallied(stats, outcome, size))
  {
    assert Untouched(start, before, key);
    KeysMoveOn(j, start, before, after, done, failed, key, outcome);
    SumsMoveOn(j, start, before, done, failed, stats, key, outcome, size);
  }

  lemma KeysMoveOn(j: Job, start: Bucket, before: Bucket, after: Bucket,
                   done: set<string>, failed: set<string>, key: string, outcome: Outcome)
    requires key in j.source && key !in done && KeysRight(j, start, before, done, failed)
    requires after == if outcome.Copied? then before[key := CopyOf(j.source[key])] else before
    requires outcome.Skipped? ==> !j.overwrite && Present(j, before, key)
    requires outcome.Copied? ==> j.overwrite || !Present(j, before, key)
    ensures KeysRight(j, start, after, done + {key}, if outcome.Failed? then failed + {key} else failed)
  {
    assert Untouched(start, before, key);
    var failures := if outcome.Failed? then failed + {key} else failed;
    forall k | k in done + {key}
      ensures Settled(j, start, after, k, k in failures)
    {
      if k != key {
        assert Settled(j, start, before, k, k in failed);
      }
    }
  }

  lemma SumsMoveOn(j: Job, start: Bucket, before: Bucket, done: set<string>, failed: set<string>, stats: Stats,
                   key: string, outcome: Outcome, size: nat)
    requires key in j.source && key !in done && failed <= done && Untouched(start, before, key)
    requires SumsRight(j, start, done, failed, stats)
    requires outcome.Copied? ==> (j.overwrite || !Present(j, before, key)) && size == |j.source[key].data|
    requires outcome.Skipped? ==> !j.overwrite && Present(j, before, key)
    ensures SumsRight(j, start, done + {key}, if outcome.Failed? then failed + {key} else failed,
                      Tallied(stats, outcome, size))
  {
    hide CopiedKeys, SizeOf;
    assert |done + {key}| == |done| + 1 && |failed + {key}| == |failed| + 1;
    var was := CopiedKeys(j, start, done, failed);
    CopiedKeysMoveOn(j, start, before, done, failed, key, outcome);
    if outcome.Copied? {
      assert |was + {key}| == |was| + 1;
      SizeOfMore(j.source, was, key);
    }
  }

  lemma CopiedKeysMoveOn(j: Job, start: Bucket, before: Bucket, done: set<string>, failed: set<string>, key: string,
                         outcome: Outcome)
    requires key in j.source && key !in done && failed <= done <= j.source.Keys && Untouched(start, before, key)
    requires outcome.Copied? ==> j.overwrite || !Present(j, before, key)
    requires outcome.Skipped? ==> !j.overwrite && Present(j, before, key)
    ensures var was := CopiedKeys(j, start, done, failed);
            var now := CopiedKeys(j, start, done + {key}, if outcome.Failed? then failed + {key} else failed);
            key !in was && was <= j.source.Keys && now == if outcome.Copied? then was + {key} else was
  {
  }

  /** One key of the listing: unless this is a dry run its handler is submitted, and once
      enough are out all are waited for. */
  method Scan(j: Job, key: string, futures: set<string>, dryRun: bool, workers: int, dest: StorageBackend, stats: Stats,
              ghost start: Bucket, ghost scanned: set<string>, ghost done: set<string>, ghost failed: set<string>)
    returns (counted: Stats, waiting: set<string>, ghost finished: set<string>, ghost failures: set<string>)
    requires key in j.source && key !in scanned && scanned <= j.source.Keys
    requires done !! futures && done + futures == if dryRun then {} else scanned
    requires Progress(j, start, dest.objects, done, failed, stats)
    modifies dest
    ensures Progress(j, start, dest.objects, finished, failures, counted) && counted.scanned == stats.scanned + 1
    ensures finished !! waiting && finished + waiting == if dryRun then {} else scanned + {key}
    ensures dryRun ==> dest.objects == old(dest.objects) && counted == stats.(scanned := stats.scanned + 1)
  {
    hide Progress;
    ScannedAside(j, start, dest.objects, done, failed, stats);
    counted, waiting, finished, failures := stats.(scanned := stats.scanned + 1), futures, done, failed;
    if !dryRun {
      waiting := waiting + {key};
      if |waiting| >= workers * 4 {
        counted, failures := Drain(j, waiting, dest, counted, start, done, failed);
        finished, waiting := done + waiting, {};
      }
    }
  }

  /** A listing of the source names each key under the prefix once. */
  ghost predicate Lists(listing: seq<string>, source: Bucket, prefix: string) {
    && (forall i, k | 0 <= i < k < |listing| :: listing[i] != listing[k])
    && (forall key :: key in listing <==> key in source && prefix <= key)
  }

  ghost function Upto(listing: seq<string>, i: nat): set<string>
    requires i <= |listing|
  {
    set key | key in listing[..i]
  }

  lemma NextKey(listing: seq<string>, i: nat, source: Bucket, prefix: string)
    requires Lists(listing, source, prefix) && i < |listing|
    ensures listing[i] in source && listing[i] !in Upto(listing, i) && Upto(listing, i) <= source.Keys
    ensures Upto(listing, i + 1) == Upto(listing, i) + {listing[i]}
    ensures |Upto(listing, i + 1)| == |Upto(listing, i)| + 1
  {
    assert listing[..i + 1] == listing[..i] + [listing[i]];
    assert forall key | key in listing[..i] :: key in listing;
    assert listing[i] in listing;
  }

  lemma AllKeys(listing: seq<string>, source: Bucket, prefix: string)
    requires Lists(listing, source, prefix)
    ensures Upto(listing, 0) == {} && Upto(listing, |listing|) == Listed(source, prefix) <= source.Keys
  {
    assert listing[..|listing|] == listing;
  }

  method MigrateObjects(j: Job, listing: seq<string>, dest: StorageBackend, ghost prefix: string, dryRun: bool,
                        workers: int)
    returns (stats: Stats, ghost failed: set<string>)
    requires Lists(listing, j.source, prefix)
    modifies dest
    ensures stats.scanned == |listing| == |Listed(j.source, prefix)|
    ensures dryRun ==> dest.objects == old(dest.objects) && stats == Stats(|listing|, 0, 0, 0, 0)
    ensures !dryRun ==> Progress(j, old(dest.objects), dest.objects, Listed(j.source, prefix), failed, stats)
  {
    hide Progress, Lists, Listed, Upto;
    stats, failed := Stats(0, 0, 0, 0, 0), {};
    ghost var start := dest.objects;
    NothingYet(j, start);
    var futures: set<string> := {};
    ghost var done: set<string> := {};
    AllKeys(listing, j.source, prefix);
    for i := 0 to |listing|
      invariant stats.scanned == |Upto(listing, i)| == i
      invariant dryRun ==> dest.objects == start && stats == Stats(i, 0, 0, 0, 0)
      invariant done !! futures && done + futures == if dryRun then {} else Upto(listing, i)
      invariant Progress(j, start, dest.objects, done, failed, stats)
    {
      var key := listing[i];
      NextKey(listing, i, j.source, prefix);
      ghost var listed := Upto(listing, i);
      stats, futures, done, failed := Scan(j, key, futures, dryRun, workers, dest, stats, start, listed, done, failed);
    }
    stats, failed := Drain(j, futures, dest, stats, start, done, failed);
  }

  /** Waits for the submitted handlers. */
  method Drain(j: Job, futures: set<string>, dest: StorageBackend, stats: Stats,
               ghost start: Bucket, ghost done: set<string>, ghost failed: set<string>)
    returns (counted: Stats, ghost failures: set<string>)
    requires futures <= j.source.Keys && done !! futures && Progress(j, start, dest.objects, done, failed, stats)
    modifies dest
    ensures Progress(j, start, dest.objects, done + futures, failures, counted) && counted.scanned == stats.scanned
    ensures futures == {} ==> counted == stats && dest.objects == old(dest.objects)
  {
    hide Progress;
    var pending := futures;
    counted, failures := stats, failed;
    ghost var handled := done;
    while pending != {}
      invariant pending <= futures && handled == done + (futures - pending)
      invariant Progress(j, start, dest.objects, handled, failures, counted) && counted.scanned == stats.scanned
      invariant pending == futures ==> counted == stats && dest.objects == old(dest.objects)
    {
      var key :| key in pending;
      counted, failures := Handle(j, key, dest, counted, start, handled, failures);
      handled := handled + {key};
      pending := pending - {key};
    }
    assert handled == done + futures;
  }

  /** What the loop's progress means once it is through: the counters add up, and each
      listed key whose handler did not fail was left alone where it was there at the right
      size and is not to be overwritten, and else copied. */
  lemma MigrationMeans(j: Job, start: Bucket, dest: Bucket, listed: set<string>, failed: set<string>, stats: Stats)
    requires Progress(j, start, dest, listed, failed, stats) && stats.scanned == |listed|
    ensures listed <= j.source.Keys && failed <= listed && |failed| == stats.errors
    ensures stats.scanned == stats.copied + stats.skipped + stats.errors
    ensures stats.bytesCopied == SizeOf(j.source, CopiedKeys(j, start, listed, failed))
    ensures forall k | k in listed && k !in failed ::
              && k in dest && |dest[k].data| == |j.source[k].data|
              && if !j.overwrite && k in start && |start[k].data| == |j.source[k].data| then dest[k] == start[k]
                 else Carries(dest[k], j.source[k])
    ensures forall k | k !in listed || k in failed :: Untouched(start, dest, k)
    ensures !j.overwrite && (forall k | k in listed :: Present(j, start, k)) ==> stats.copied == 0 && dest == start
  {
    forall k | k in listed
      ensures Settled(j, start, dest, k, k in failed) && Carries(CopyOf(j.source[k]), j.source[k])
    {
      CopyCarries(j.source[k]);
    }
    if !j.overwrite && (forall k | k in listed :: Present(j, start, k)) {
      assert CopiedKeys(j, start, listed, failed) == {};
      forall k
        ensures Untouched(start, dest, k)
      {
        assert k in listed ==> Settled(j, start, dest, k, k in failed);
      }
      AllUntouched(start, dest);
    }
  }
}
