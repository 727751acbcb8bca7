/**
 * The picture viewer's prefetching cache. The cache maps a position to its
 * payload, with `None` standing for "load requested, not finished". Moving to
 * a position marks every position of its window that is not yet a key as
 * pending and sends one load request per such position to the loader. A
 * finished load overwrites the entry with its result. Entries are never
 * removed.
 *
 * The loader runs in another process in the source; here a request is an
 * entry appended to the loader's log, and its completion is a separate call
 * of `LoadDone`. Payloads (decoded images) are an opaque type `P`.
 */
module Gallery {
  import opened WindowPolicy
  import opened Navigation

  datatype Option<T> = None | Some(value: T)

  /** A load request: a position and the file to load for it. */
  datatype Request = Request(index: int, file: string)

  /** The positions requested, in request order. */
  function Positions(log: seq<Request>): (r: seq<int>)
    ensures |r| == |log|
    ensures forall k :: 0 <= k < |log| ==> r[k] == log[k].index
  {
    if log == [] then [] else [log[0].index] + Positions(log[1..])
  }

  /** No position is requested twice. */
  predicate DispatchedOnce(log: seq<Request>)
  {
    Distinct(Positions(log))
  }

  /**
   * The requests `set_index` sends for `window` against a cache whose keys
   * are `keys`: exactly the window positions that are not keys, each with
   * that position's file. A window without duplicates gives requests without
   * duplicates.
   */
  function Paths(files: seq<string>, window: seq<int>, keys: set<int>): (r: seq<Request>)
    requires forall x :: x in window && x !in keys ==> 0 <= x < |files|
    ensures |r| <= |window|
    ensures forall x :: x in Positions(r) <==> x in window && x !in keys
    ensures forall k :: 0 <= k < |r| ==> 0 <= r[k].index < |files| && r[k].file == files[r[k].index]
    ensures Distinct(window) ==> DispatchedOnce(r)
  {
    if window == [] then []
    else
      var rest := Paths(files, window[1..], keys);
      if window[0] in keys then rest
      else
        var r := [Request(window[0], files[window[0]])] + rest;
        assert r[1..] == rest;
        assert Positions(r) == [window[0]] + Positions(rest);
        assert Distinct(window) ==> window[0] !in window[1..];
        r
  }

  /** Requests for a concatenated window are those for its first part followed by those for its second. */
  lemma {:induction false} PathsAppend(files: seq<string>, a: seq<int>, b: seq<int>, keys: set<int>)
    requires forall x :: x in a + b && x !in keys ==> 0 <= x < |files|
    ensures Paths(files, a + b, keys) == Paths(files, a, keys) + Paths(files, b, keys)
  {
    if a != [] {
      assert (a + b)[1..] == a[1..] + b;
      PathsAppend(files, a[1..], b, keys);
    } else {
      assert a + b == b;
    }
  }

  /**
   * The cache after `set_index` tags `window`: every window position becomes
   * a key, positions that were not keys hold the pending sentinel `None`, and
   * every entry already present keeps its value.
   */
  function MarkPending<P>(cache: map<int, Option<P>>, window: seq<int>): (r: map<int, Option<P>>)
    ensures r.Keys == cache.Keys + set x | x in window
    ensures forall x :: x in cache ==> r[x] == cache[x]
    ensures forall x :: x in r && x !in cache ==> r[x] == None
  {
    map x | x in cache.Keys + (set y | y in window) :: if x in cache then cache[x] else None
  }

  /** Tagging one more position adds it as pending unless it is already a key. */
  lemma MarkPendingStep<P>(cache: map<int, Option<P>>, window: seq<int>, x: int)
    ensures MarkPending(cache, window + [x]) ==
            var m := MarkPending(cache, window); if x in m then m else m[x := None]
  {
    var m := MarkPending(cache, window);
    var m' := MarkPending(cache, window + [x]);
    assert (set y | y in window + [x]) == (set y | y in window) + {x};
    assert m'.Keys == m.Keys + {x};
  }

  /** Distinct requests whose positions are all keys of a set are at most as many as the set's elements. */
  lemma {:induction false} DispatchBound(log: seq<Request>, keys: set<int>)
    requires DispatchedOnce(log)
    requires forall k :: 0 <= k < |log| ==> log[k].index in keys
    ensures |log| <= |keys|
  {
    if log != [] {
      var last := log[|log| - 1];
      var init := log[..|log| - 1];
      assert forall k :: 0 <= k < |init| ==> init[k] == log[k];
      DispatchBound(init, keys - {last.index});
    }
  }

  /**
   * Appending requests for positions that were not keys, when every earlier
   * request was for a key, keeps every position requested at most once.
   */
  lemma {:induction false} NewRequestsKeepOnce(log: seq<Request>, added: seq<Request>, keys: set<int>)
    requires DispatchedOnce(log) && DispatchedOnce(added)
    requires forall k :: 0 <= k < |log| ==> log[k].index in keys
    requires forall x :: x in Positions(added) ==> x !in keys
    ensures DispatchedOnce(log + added)
  {
    var joined, parts := Positions(log + added), Positions(log) + Positions(added);
    forall k | 0 <= k < |joined|
      ensures joined[k] == parts[k]
    {
      if k < |log| {
        assert (log + added)[k] == log[k];
      } else {
        assert (log + added)[k] == added[k - |log|];
      }
    }
    assert joined == parts;
    DistinctConcat(Positions(log), Positions(added));
  }

  /** The loader: every call to `load` is recorded as a request, in call order. */
  class Loader {
    var requests: seq<Request>

    constructor ()
      ensures requests == []
    {
      requests := [];
    }

    /** Dispatches a load of `path` for position `key`. */
    method Load(key: int, path: string)
      modifies this
      ensures requests == old(requests) + [Request(key, path)]
    {
      requests := requests + [Request(key, path)];
    }
  }

  class PictureViewer<P> {
    const files: seq<string>
    const n: int
    const steps: int
    const nav: Navigator
    const loader: Loader
    var cache: map<int, Option<P>>

    /**
     * The state every operation keeps: the navigator ranges over the files
     * with the viewer's look-ahead, and the loader's log requests each
     * position at most once, always with that position's file, and only
     * positions that are keys of the cache.
     */
    ghost predicate Consistent()
      reads this, nav, loader
    {
      && n == |files| && nav.n == n && nav.steps == steps
      && nav.Valid()
      && DispatchedOnce(loader.requests)
      && (forall k :: 0 <= k < |loader.requests| ==>
            var req := loader.requests[k];
            req.index in cache && 0 <= req.index < n && req.file == files[req.index])
    }

    /** Besides, every position of the current window is a key of the cache. */
    ghost predicate Valid()
      reads this, nav, loader
    {
      Consistent() && forall x :: x in nav.Indices() ==> x in cache
    }

    /** A viewer over `files`, moved to position 0 with look-ahead 2. */
    constructor (files: seq<string>)
      requires |files| >= 1
      ensures Valid() && fresh(nav) && fresh(loader)
      ensures this.files == files && n == |files| && steps == 2
      ensures nav.i == 0 && nav.dir == 0
      ensures cache == MarkPending(map[], SourceWindow(|files|, 2, 0))
      ensures loader.requests == Paths(files, SourceWindow(|files|, 2, 0), {})
    {
      this.files := files;
      cache := map[];
      n := |files|;
      steps := 2;
      loader := new Loader();
      nav := new Navigator(|files|, 2);
      new;
      assert cache.Keys == {};
      SetIndex(0);
    }

    /**
     * Moves to `j`, tags the window's missing positions as pending, and
     * requests exactly those positions, in window order, once each. Entries
     * already present, pending or loaded, are neither overwritten nor
     * requested again, and no key is removed.
     */
    method SetIndex(j: int)
      requires Consistent() && 0 <= j < n
      modifies this, nav, loader
      ensures Valid()
      ensures nav.i == j && nav.dir == 0
      ensures nav.Indices() == SourceWindow(n, steps, j) == BiasedWindow(n, steps, j, nav.dir)
      ensures cache == MarkPending(old(cache), SourceWindow(n, steps, j))
      ensures forall x :: x in old(cache) ==> x in cache && cache[x] == old(cache)[x]
      ensures loader.requests == old(loader.requests) + Paths(files, SourceWindow(n, steps, j), old(cache).Keys)
    {
      nav.Set(j);
      var indices := nav.Indices();
      assert indices == SourceWindow(n, steps, j);
      var paths := Paths(files, indices, cache.Keys);
      ghost var before := cache;
      ghost var log := loader.requests;
      Tag(indices);
      assert forall x :: x in indices ==> x in cache;
      Dispatch(paths);
      NewRequestsKeepOnce(log, paths, before.Keys);
      forall k | 0 <= k < |loader.requests|
        ensures loader.requests[k].index in cache
        ensures 0 <= loader.requests[k].index < n && loader.requests[k].file == files[loader.requests[k].index]
      {
        if k < |log| {
          assert loader.requests[k] == log[k];
        } else {
          assert loader.requests[k] == paths[k - |log|];
          assert loader.requests[k].index in Positions(paths);
        }
      }
    }

    /** The source's first loop over the window: tags every position that is not a key as pending. */
    method Tag(indices: seq<int>)
      modifies this
      ensures cache == MarkPending(old(cache), indices)
    {
      var k := 0;
      while k < |indices|
        invariant 0 <= k <= |indices|
        invariant cache == MarkPending(old(cache), indices[..k])
      {
        MarkPendingStep(old(cache), indices[..k], indices[k]);
        assert indices[..k + 1] == indices[..k] + [indices[k]];
        if indices[k] !in cache {
          cache := cache[indices[k] := None];
        }
        k := k + 1;
      }
      assert indices[..k] == indices;
    }

    /** The source's second loop: one call to the loader per request, in order. */
    method Dispatch(paths: seq<Request>)
      modifies loader
      ensures loader.requests == old(loader.requests) + paths
    {
      var k := 0;
      while k < |paths|
        invariant 0 <= k <= |paths|
        invariant loader.requests == old(loader.requests) + paths[..k]
      {
        loader.Load(paths[k].index, paths[k].file);
        assert paths[..k + 1] == paths[..k] + [paths[k]];
        k := k + 1;
      }
      assert paths[..k] == paths;
    }

    /** One step forward (never past the last position), then `SetIndex` there. */
    method Next()
      requires Consistent()
      modifies this, nav, loader
      ensures Valid()
      ensures nav.i == if old(nav.i) < n - 1 then old(nav.i) + 1 else old(nav.i)
      ensures nav.dir == 0
      ensures cache == MarkPending(old(cache), SourceWindow(n, steps, nav.i))
      ensures loader.requests == old(loader.requests) + Paths(files, SourceWindow(n, steps, nav.i), old(cache).Keys)
    {
      nav.Next();
      SetIndex(nav.Current());
    }

    /** One step back (never before position 0), then `SetIndex` there. */
    method Previous()
      requires Consistent()
      modifies this, nav, loader
      ensures Valid()
      ensures nav.i == if old(nav.i) > 0 then old(nav.i) - 1 else old(nav.i)
      ensures nav.dir == 0
      ensures cache == MarkPending(old(cache), SourceWindow(n, steps, nav.i))
      ensures loader.requests == old(loader.requests) + Paths(files, SourceWindow(n, steps, nav.i), old(cache).Keys)
    {
      nav.Previous();
      SetIndex(nav.Current());
    }

    /**
     * `cache.get(key, None)`: the payload when one is loaded for `key`, and
     * `None` both when `key` was never requested and while it is pending.
     */
    function Get(key: int): (r: Option<P>)
      reads this
      ensures r.Some? <==> key in cache && cache[key].Some?
      ensures r.Some? ==> cache[key] == r
    {
      if key in cache then cache[key] else None
    }

    /** The entry for the current position, `None` until its payload is loaded. */
    function Current(): (r: Option<P>)
      reads this, nav
      ensures r.Some? <==> nav.i in cache && cache[nav.i].Some?
      ensures r == Get(nav.i)
    {
      Get(nav.Current())
    }

    /** `self[key] = value`: overwrites one entry and leaves the others and the requests alone. */
    method SetItem(key: int, value: Option<P>)
      requires Valid()
      modifies this
      ensures Valid()
      ensures cache == old(cache)[key := value]
      ensures unchanged(nav, loader)
    {
      cache := cache[key := value];
    }

    /**
     * The completion handler of a load: stores its result for `key`, whether
     * or not `key` is still in the current window.
     */
    method LoadDone(key: int, result: P)
      requires Valid()
      modifies this
      ensures Valid()
      ensures cache == old(cache)[key := Some(result)]
      ensures unchanged(nav, loader)
    {
      cache := cache[key := Some(result)];
    }

    /** Every request in the log is for a distinct cached position, so there are no more requests than keys. */
    lemma RequestsBounded()
      requires Consistent()
      ensures |loader.requests| <= |cache.Keys|
    {
      DispatchBound(loader.requests, cache.Keys);
    }
  }

  /**
   * A load for position 3 that finishes before the viewer gets there: moving
   * to 3 afterwards finds the payload and sends no request for 3.
   */
  method PrefetchedBeforeVisit<P>(files: seq<string>, payload: P)
    requires |files| == 5
  {
    var viewer := new PictureViewer<P>(files);
    viewer.Next();
    assert viewer.nav.i == 1;
    assert 3 in SourceWindow(5, 2, 1);
    viewer.LoadDone(3, payload);
    ghost var requested := viewer.loader.requests;
    viewer.SetIndex(3);
    assert viewer.Current() == Some(payload);
    assert 3 !in Positions(viewer.loader.requests[|requested|..]);
  }
}
