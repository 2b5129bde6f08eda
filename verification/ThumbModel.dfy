/**
  The thumbnail scheduler as a step function, with the account that a long-time observer would keep of it.
  (crates/owe-core/src/thumbs.rs)
 */
module ThumbModel {
  import opened Prelude
  import opened LibraryWalk

  /** A cache key. The 128-bit hash of (path, stamp, size) is taken to be injective: a key is what it was made from. */
  datatype Key = Key(path: Path, stamp: Stamp, size: nat)

  datatype CacheFile = CacheFile(root: Path, size: nat, key: Key)

  datatype Decision = Cached(file: CacheFile) | Enqueued | AlreadyQueued | Failed(reason: Reason)

  datatype Reason = QueueFull(limit: nat) | Generation(text: string)

  datatype Job = Job(key: Key, path: Path, cachePath: CacheFile, stamp: Stamp, size: nat)

  datatype Config = Config(root: Path, size: nat, maxQueue: nat)

  /** The ceiling is at least one job. */
  function WithMaxQueue(root: Path, size: nat, maxQueue: nat): Config {
    Config(root, size, if maxQueue < 1 then 1 else maxQueue)
  }

  datatype State = State(queue: seq<Job>, known: map<Key, Decision>, inFlight: Option<Key>,
                         generated: nat, servedFromCache: nat, failures: nat)

  datatype Event =
    | Request(path: Path, stamp: Stamp, fileExists: bool)
    | NextJob
    | Complete(key: Key, result: Result<CacheFile, string>)
    | Forget(forgotten: Key)
    | Retry(retried: Key)
    | ResetStats

  datatype Answer = Decided(decision: Decision) | Handed(job: Option<Job>) | Done

  function Start(): State {
    State([], map[], None, 0, 0, 0)
  }

  function JobFor(c: Config, path: Path, stamp: Stamp): Job {
    var key := Key(path, stamp, c.size);
    Job(key, path, CacheFile(c.root, c.size, key), stamp, c.size)
  }

  function Without(q: seq<Job>, key: Key): seq<Job> {
    if q == [] then [] else (if q[0].key == key then [] else [q[0]]) + Without(q[1..], key)
  }

  function AfterRequest(c: Config, s: State, path: Path, stamp: Stamp, fileExists: bool): State {
    var job := JobFor(c, path, stamp);
    if job.key in s.known then s
    else if fileExists then s.(servedFromCache := s.servedFromCache + 1,
        known := s.known[job.key := Cached(job.cachePath)])
    else if |s.queue| >= c.maxQueue then s
    else s.(known := s.known[job.key := Enqueued], queue := s.queue + [job])
  }

  function DecisionFor(c: Config, s: State, path: Path, stamp: Stamp, fileExists: bool): Decision {
    var job := JobFor(c, path, stamp);
    if job.key in s.known then
      match s.known[job.key]
      case Cached(file) => Cached(file)
      case Failed(reason) => Failed(reason)
      case _ => AlreadyQueued
    else if fileExists then Cached(job.cachePath)
    else if |s.queue| >= c.maxQueue then Failed(QueueFull(c.maxQueue))
    else Enqueued
  }

  function JobHanded(s: State): Option<Job> {
    if s.inFlight.Some? || s.queue == [] then None else Some(s.queue[0])
  }

  function AfterNextJob(s: State): State {
    if s.inFlight.Some? || s.queue == [] then s else s.(queue := s.queue[1..], inFlight := Some(s.queue[0].key))
  }

  function AfterComplete(s: State, key: Key, result: Result<CacheFile, string>): State {
    var t := if s.inFlight == Some(key) then s.(inFlight := None) else s;
    match result
    case Ok(file) => t.(generated := t.generated + 1, known := t.known[key := Cached(file)])
    case Err(text) => t.(failures := t.failures + 1, known := t.known[key := Failed(Generation(text))])
  }

  function AfterForget(s: State, key: Key): State {
    s.(known := s.known - {key}, queue := Without(s.queue, key))
  }

  function AfterRetry(s: State, key: Key): State {
    if key in s.known && s.known[key].Failed? then s.(known := s.known - {key}) else s
  }

  function Step(c: Config, s: State, e: Event): State {
    match e
    case Request(path, stamp, fileExists) => AfterRequest(c, s, path, stamp, fileExists)
    case NextJob => AfterNextJob(s)
    case Complete(key, result) => AfterComplete(s, key, result)
    case Forget(key) => AfterForget(s, key)
    case Retry(key) => AfterRetry(s, key)
    case ResetStats => s.(generated := 0, servedFromCache := 0, failures := 0)
  }

  // ------------------------------------------------------------------ what must hold at all times

  ghost predicate HasKey(q: seq<Job>, key: Key) {
    exists i :: 0 <= i < |q| && q[i].key == key
  }

  ghost predicate DistinctKeys(q: seq<Job>) {
    forall i, j :: 0 <= i < j < |q| ==> q[i].key != q[j].key
  }

  /** A job carries the key of its own path and stamp, and writes where that key is looked up. */
  ghost predicate IsTrue(c: Config, job: Job) {
    && job.key == Key(job.path, job.stamp, c.size) && job.size == c.size
    && job.cachePath == CacheFile(c.root, c.size, job.key)
  }

  ghost predicate JobsAreTrue(c: Config, q: seq<Job>) {
    forall i :: 0 <= i < |q| ==> IsTrue(c, q[i])
  }

  /** A key stands for one path and one stamp, so a file that was changed is another piece of work. */
  lemma KeysTellApart(c: Config, p: Path, a: Stamp, q: Path, b: Stamp)
    ensures JobFor(c, p, a).key == JobFor(c, q, b).key <==> p == q && a == b
    ensures IsTrue(c, JobFor(c, p, a)) && JobFor(c, p, a).path == p && JobFor(c, p, a).stamp == a
  {
  }

  /** A key is recorded as enqueued exactly while it is queued or in flight, and is never both. */
  ghost predicate RecordsAreTrue(q: seq<Job>, known: map<Key, Decision>, inFlight: Option<Key>) {
    && (forall k :: k in known && known[k].Enqueued? <==> HasKey(q, k) || inFlight == Some(k))
    && (forall k :: k in known ==> !known[k].AlreadyQueued?)
    && (inFlight.Some? ==> !HasKey(q, inFlight.value))
  }

  ghost predicate Good(c: Config, s: State) {
    && DistinctKeys(s.queue)
    && JobsAreTrue(c, s.queue)
    && |s.queue| <= c.maxQueue
    && RecordsAreTrue(s.queue, s.known, s.inFlight)
  }

  /** How the daemon uses it: a queued key is not reported complete, and the key being generated is not forgotten. */
  ghost predicate Disciplined(s: State, e: Event) {
    && (e.Complete? ==> !HasKey(s.queue, e.key))
    && (e.Forget? ==> s.inFlight != Some(e.forgotten))
  }

  lemma {:induction false} WithoutDrops(q: seq<Job>, key: Key, k: Key)
    ensures HasKey(Without(q, key), k) <==> HasKey(q, k) && k != key
  {
    if q != [] {
      var w, rest := Without(q, key), Without(q[1..], key);
      WithoutDrops(q[1..], key, k);
      KeySplit(q, k);
      if q[0].key != key {
        assert w == [q[0]] + rest && w[1..] == rest;
        KeySplit(w, k);
      } else {
        assert w == rest;
      }
    }
  }

  lemma {:induction false} WithoutKeepsQueue(c: Config, q: seq<Job>, key: Key)
    requires DistinctKeys(q) && JobsAreTrue(c, q)
    ensures DistinctKeys(Without(q, key)) && JobsAreTrue(c, Without(q, key))
    ensures |Without(q, key)| == |q| - if HasKey(q, key) then 1 else 0
  {
    if q != [] {
      var w, rest := Without(q, key), Without(q[1..], key);
      WithoutKeepsQueue(c, q[1..], key);
      KeySplit(q, key);
      DistinctSplit(q);
      if q[0].key != key {
        assert w == [q[0]] + rest && w[1..] == rest;
        WithoutDrops(q[1..], key, q[0].key);
        DistinctSplit(w);
      }
    }
  }

  lemma DistinctSplit(q: seq<Job>)
    requires q != []
    ensures DistinctKeys(q) <==> DistinctKeys(q[1..]) && !HasKey(q[1..], q[0].key)
  {
    if DistinctKeys(q[1..]) && !HasKey(q[1..], q[0].key) {
      forall i, j | 0 <= i < j < |q| ensures q[i].key != q[j].key {
        assert q[j] == q[1..][j - 1];
        if i > 0 { assert q[i] == q[1..][i - 1]; }
      }
    }
  }

  lemma KeySplit(q: seq<Job>, k: Key)
    requires q != []
    ensures HasKey(q, k) <==> q[0].key == k || HasKey(q[1..], k)
  {
    if HasKey(q, k) {
      var i :| 0 <= i < |q| && q[i].key == k;
      if i > 0 { assert q[1..][i - 1].key == k; }
    }
    if HasKey(q[1..], k) {
      var i :| 0 <= i < |q[1..]| && q[1..][i].key == k;
      assert q[i + 1].key == k;
    }
  }

  lemma KeyAtTheEnd(q: seq<Job>, job: Job, k: Key)
    ensures HasKey(q + [job], k) <==> HasKey(q, k) || job.key == k
  {
    if HasKey(q, k) {
      var i :| 0 <= i < |q| && q[i].key == k;
      assert (q + [job])[i].key == k;
    }
    assert (q + [job])[|q|] == job;
  }

  lemma StartIsGood(c: Config)
    ensures Good(c, Start())
  {
  }

  lemma RequestKeepsGood(c: Config, s: State, path: Path, stamp: Stamp, fileExists: bool)
    requires Good(c, s)
    ensures Good(c, AfterRequest(c, s, path, stamp, fileExists))
  {
    hide HasKey;
    var job := JobFor(c, path, stamp);
    if job.key !in s.known && !fileExists && |s.queue| < c.maxQueue {
      forall k ensures HasKey(s.queue + [job], k) <==> HasKey(s.queue, k) || job.key == k {
        KeyAtTheEnd(s.queue, job, k);
      }
      assert !HasKey(s.queue, job.key);
      AllOthersDiffer(s.queue, job.key);
    }
  }

  lemma AllOthersDiffer(q: seq<Job>, k: Key)
    requires !HasKey(q, k)
    ensures forall i :: 0 <= i < |q| ==> q[i].key != k
  {
  }

  lemma NextJobKeepsGood(c: Config, s: State)
    requires Good(c, s)
    ensures Good(c, AfterNextJob(s))
  {
    if s.inFlight.None? && s.queue != [] {
      forall k ensures HasKey(s.queue, k) <==> s.queue[0].key == k || HasKey(s.queue[1..], k) {
        KeySplit(s.queue, k);
      }
      assert !HasKey(s.queue[1..], s.queue[0].key);
      hide HasKey;
    }
  }

  lemma CompleteKeepsGood(c: Config, s: State, key: Key, result: Result<CacheFile, string>)
    requires Good(c, s)
    ensures Good(c, AfterComplete(s, key, result)) <==> !HasKey(s.queue, key)
  {
    hide HasKey, DistinctKeys, JobsAreTrue;
    var t := AfterComplete(s, key, result);
    assert key in t.known && !t.known[key].Enqueued? && !t.known[key].AlreadyQueued?;
    assert t.queue == s.queue;
  }

  lemma ForgetKeepsGood(c: Config, s: State, key: Key)
    requires Good(c, s)
    ensures Good(c, AfterForget(s, key)) <==> s.inFlight != Some(key)
  {
    WithoutKeepsQueue(c, s.queue, key);
    forall k ensures HasKey(Without(s.queue, key), k) <==> HasKey(s.queue, k) && k != key {
      WithoutDrops(s.queue, key, k);
    }
    hide HasKey, DistinctKeys, JobsAreTrue, Without;
    assert key !in AfterForget(s, key).known;
  }

  /** The uses that keep the records true are exactly the disciplined ones: nothing else may ever be called. */
  lemma DisciplineIsExact(c: Config, s: State, e: Event)
    requires Good(c, s)
    ensures Good(c, Step(c, s, e)) <==> Disciplined(s, e)
  {
    match e
    case Request(path, stamp, fileExists) => RequestKeepsGood(c, s, path, stamp, fileExists);
    case NextJob => NextJobKeepsGood(c, s);
    case Complete(key, result) => CompleteKeepsGood(c, s, key, result);
    case Forget(key) => ForgetKeepsGood(c, s, key);
    case Retry(key) =>
    case ResetStats =>
  }
}
