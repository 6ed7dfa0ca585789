/** The per-child-cluster watcher manager: one spawned task per cached client, driven by two callbacks. */
module ChildWatch {
  /** The Secret that backs a cached client. The data key inside the Secret is not part of it. */
  datatype CacheKey = CacheKey(namespace: string, secretName: string)

  /** A built client: the how-manieth build it was, and the Secret version and data key it was built from. */
  datatype Client = Client(serial: nat, key: CacheKey, resourceVersion: string, dataKey: string, kubeconfig: string)

  datatype Watcher = Watcher(key: CacheKey, client: Client)

  /**
   The task map together with what the runtime has seen: every watcher ever spawned, in order, and
   the handles that were aborted. A handle is a position in `spawned`.
   */
  datatype WatchState = WatchState(tasks: map<CacheKey, nat>, spawned: seq<Watcher>, aborted: set<nat>)

  function Cancelled(w: WatchState, key: CacheKey): WatchState {
    if key in w.tasks
    then WatchState(w.tasks - {key}, w.spawned, w.aborted + {w.tasks[key]})
    else w
  }

  function Started(w: WatchState, key: CacheKey, client: Client): WatchState {
    var c := Cancelled(w, key);
    WatchState(c.tasks[key := |c.spawned|], c.spawned + [Watcher(key, client)], c.aborted)
  }

  /** The map tracks exactly the tasks still running, each under the key it watches. */
  ghost predicate Tracking(w: WatchState) {
    && (forall k :: k in w.tasks ==> w.tasks[k] < |w.spawned| && w.spawned[w.tasks[k]].key == k)
    && (forall id :: id in w.aborted ==> id < |w.spawned|)
    && (forall id: nat {:trigger Tracked(w, id)} :: id < |w.spawned| ==> (id !in w.aborted <==> Tracked(w, id)))
  }

  ghost predicate Tracked(w: WatchState, id: nat)
    requires id < |w.spawned|
  {
    w.spawned[id].key in w.tasks && w.tasks[w.spawned[id].key] == id
  }

  lemma CancelledTracks(w: WatchState, key: CacheKey)
    requires Tracking(w)
    ensures Tracking(Cancelled(w, key)) && key !in Cancelled(w, key).tasks
  {
    var v := Cancelled(w, key);
    forall id: nat | id < |v.spawned| ensures id !in v.aborted <==> Tracked(v, id) {
      assert id !in w.aborted <==> Tracked(w, id);
    }
  }

  lemma StartedTracks(w: WatchState, key: CacheKey, client: Client)
    requires Tracking(w)
    ensures Tracking(Started(w, key, client))
  {
    CancelledTracks(w, key);
    var c, v := Cancelled(w, key), Started(w, key, client);
    forall id: nat | id < |v.spawned| ensures id !in v.aborted <==> Tracked(v, id) {
      assert id < |c.spawned| ==> (id !in c.aborted <==> Tracked(c, id));
    }
  }

  class ChildNodeWatchManager {
    var tasks: map<CacheKey, nat>
    var spawned: seq<Watcher>
    var aborted: set<nat>

    constructor ()
      ensures State() == WatchState(map[], [], {})
    {
      tasks, spawned, aborted := map[], [], {};
    }

    ghost function State(): WatchState
      reads this
    {
      WatchState(tasks, spawned, aborted)
    }

    /** Cancel whatever runs for the key, then start a watcher with the given client. */
    method OnChildResolved(key: CacheKey, client: Client)
      modifies this
      ensures State() == Started(old(State()), key, client)
    {
      if key in tasks {
        aborted := aborted + {tasks[key]};
        tasks := tasks - {key};
      }
      var join := |spawned|;
      spawned := spawned + [Watcher(key, client)];
      tasks := tasks[key := join];
    }

    method OnChildEvicted(key: CacheKey)
      modifies this
      ensures State() == Cancelled(old(State()), key)
    {
      if key in tasks {
        aborted := aborted + {tasks[key]};
        tasks := tasks - {key};
      }
    }
  }
}
