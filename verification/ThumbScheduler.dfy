/** The scheduler object, updated in place. (crates/owe-core/src/thumbs.rs, `Scheduler`) */
module ThumbScheduler {
  import opened Prelude
  import opened LibraryWalk
  import opened ThumbModel
  import ThumbRuns

  class Scheduler {
    const config: Config
    var queue: seq<Job>
    var known: map<Key, Decision>
    var inFlight: Option<Key>
    var generated: nat
    var servedFromCache: nat
    var failures: nat

    ghost function View(): State
      reads this
    {
      State(queue, known, inFlight, generated, servedFromCache, failures)
    }

    ghost predicate Valid()
      reads this
    {
      Good(config, View())
    }

    constructor (root: Path, size: nat, maxQueue: nat)
      ensures Valid() && View() == Start() && config == WithMaxQueue(root, size, maxQueue)
    {
      config := WithMaxQueue(root, size, maxQueue);
      queue, known, inFlight := [], map[], None;
      generated, servedFromCache, failures := 0, 0, 0;
      new;
      StartIsGood(config);
    }

    /** Ask for a thumbnail. `fileExists` is what looking for the cache file says. */
    method Request(path: Path, stamp: Stamp, fileExists: bool) returns (decision: Decision)
      modifies this
      ensures old(Valid()) ==> Valid()
      ensures View() == AfterRequest(config, old(View()), path, stamp, fileExists)
      ensures decision == DecisionFor(config, old(View()), path, stamp, fileExists)
      ensures Key(path, stamp, config.size) in old(known) ==> View() == old(View())
      ensures decision.Enqueued? ==>
                && |queue| == |old(queue)| + 1 && queue[..|old(queue)|] == old(queue)
                && var job := queue[|old(queue)|]; job.path == path && job.stamp == stamp && IsTrue(config, job)
    {
      if Valid() { RequestKeepsGood(config, View(), path, stamp, fileExists); }
      hide Good;
      var key := Key(path, stamp, config.size);
      var cachePath := CacheFile(config.root, config.size, key);
      if key in known {
        match known[key] {
          case Cached(file) => return Cached(file);
          case Failed(reason) => return Failed(reason);
          case Enqueued => return AlreadyQueued;
          case AlreadyQueued => return AlreadyQueued;
        }
      }
      if fileExists {
        servedFromCache := servedFromCache + 1;
        known := known[key := Cached(cachePath)];
        return Cached(cachePath);
      }
      if |queue| >= config.maxQueue {
        return Failed(QueueFull(config.maxQueue));
      }
      known := known[key := Enqueued];
      queue := queue + [Job(key, path, cachePath, stamp, config.size)];
      return Enqueued;
    }

    /** Take the oldest job, unless one is being generated. */
    method NextJob() returns (job: Option<Job>)
      modifies this
      ensures old(Valid()) ==> Valid()
      ensures View() == AfterNextJob(old(View())) && job == JobHanded(old(View()))
      ensures old(Valid()) && job.Some? ==> IsTrue(config, job.value)
    {
      if Valid() { NextJobKeepsGood(config, View()); }
      if inFlight.Some? || queue == [] {
        return None;
      }
      job := Some(queue[0]);
      queue, inFlight := queue[1..], Some(queue[0].key);
    }

    method Complete(key: Key, result: Result<CacheFile, string>)
      modifies this
      ensures View() == AfterComplete(old(View()), key, result)
      ensures old(Valid()) ==> (Valid() <==> !HasKey(old(queue), key))
    {
      if Valid() { CompleteKeepsGood(config, View(), key, result); }
      hide Good;
      if inFlight == Some(key) {
        inFlight := None;
      }
      match result {
        case Ok(file) =>
          generated := generated + 1;
          known := known[key := Cached(file)];
        case Err(text) =>
          failures := failures + 1;
          known := known[key := Failed(Generation(text))];
      }
    }

    method Forget(key: Key)
      modifies this
      ensures View() == AfterForget(old(View()), key)
      ensures old(Valid()) ==> (Valid() <==> old(inFlight) != Some(key))
    {
      if Valid() { ForgetKeepsGood(config, View(), key); }
      hide Good;
      known := known - {key};
      queue := Without(queue, key);
    }

    method Retry(key: Key)
      modifies this
      ensures old(Valid()) ==> Valid()
      ensures View() == AfterRetry(old(View()), key)
    {
      if Valid() { DisciplineIsExact(config, View(), Event.Retry(key)); }
      hide Good;
      if key in known && known[key].Failed? {
        known := known - {key};
      }
    }

    method ResetStats()
      modifies this
      ensures old(Valid()) ==> Valid()
      ensures View() == Step(config, old(View()), Event.ResetStats)
    {
      generated, servedFromCache, failures := 0, 0, 0;
    }

    /** Nothing is left to do exactly when no key is recorded as enqueued. */
    method IsIdle() returns (idle: bool)
      requires Valid()
      ensures idle <==> forall k :: k in known ==> !known[k].Enqueued?
    {
      idle := inFlight.None? && queue == [];
      if queue != [] {
        assert HasKey(queue, queue[0].key);
      }
    }

    method LiveKeys() returns (live: set<Key>)
      requires Valid()
      ensures live == ThumbRuns.LiveKeys(View())
      ensures forall k :: HasKey(queue, k) || inFlight == Some(k) ==> k in live
    {
      live := set k | k in known && !known[k].Failed?;
    }
  }
}
