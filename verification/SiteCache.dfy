/** The memoised layer walk of container/rootfs/fn_allreduce_timer.py: from a call site up a bounded
    number of frames, looking for the layer that owns the collective. The memo is keyed by object id,
    and an id may be given to a new object once the old one is gone. */
module SiteCache {
  import opened Optional

  datatype Kind = Qsa | Gdn | Unknown

  /** An object a frame may hold as `self`; `kind` is what classifying it yields. */
  datatype Obj = Obj(serial: nat, kind: Option<Kind>)

  type Id = nat

  /** A live object seen from a frame. */
  datatype Ref = Ref(id: Id, obj: Obj)

  datatype Entry = Entry(obj: Obj, kind: Option<Kind>)

  type Cache = map<Id, Entry>

  const CACHE_MAX := 8192

  /** The frames from the call site outwards; a frame may have no `self`. */
  type Frames = seq<Option<Ref>>

  /** The walk without a memo. */
  function Uncached(frames: Frames, depth: nat): Kind {
    if depth == 0 || frames == [] then Unknown
    else if frames[0].Some? && frames[0].value.obj.kind.Some? then frames[0].value.obj.kind.value
    else Uncached(frames[1..], depth - 1)
  }

  /** One frame looked up and, when new, classified and remembered; a full memo is emptied first. */
  function Remember(cache: Cache, r: Ref, max: nat): Cache {
    if r.id in cache then cache
    else (if |cache| >= max then map[] else cache)[r.id := Entry(r.obj, r.obj.kind)]
  }

  function Known(cache: Cache, r: Ref): Option<Kind> {
    if r.id in cache then cache[r.id].kind else r.obj.kind
  }

  function Cached(cache: Cache, frames: Frames, depth: nat, max: nat): (Kind, Cache)
    decreases depth
  {
    if depth == 0 || frames == [] then (Unknown, cache)
    else if frames[0].None? then Cached(cache, frames[1..], depth - 1, max)
    else
      var r := frames[0].value;
      var known, next := Known(cache, r), Remember(cache, r, max);
      if known.Some? then (known.value, next) else Cached(next, frames[1..], depth - 1, max)
  }

  /** The walk itself, over the memo it shares with every other call. */
  class Walker {
    var cache: Cache
    const depth: nat
    const max: nat

    constructor (depth: nat, max: nat)
      ensures cache == map[] && this.depth == depth && this.max == max
    {
      cache := map[];
      this.depth := depth;
      this.max := max;
    }

    method Walk(frames: Frames) returns (kind: Kind)
      modifies this
      ensures (kind, cache) == Cached(old(cache), frames, depth, max)
    {
      ghost var result := Cached(cache, frames, depth, max);
      var i := 0;
      while i < depth && i < |frames|
        invariant i <= depth && i <= |frames|
        invariant Cached(cache, frames[i..], depth - i, max) == result
      {
        assert frames[i..][0] == frames[i] && frames[i..][1..] == frames[i + 1..];
        if frames[i].Some? {
          var r := frames[i].value;
          if r.id in cache {
            if cache[r.id].kind.Some? {
              return cache[r.id].kind.value;
            }
          } else {
            if |cache| >= max {
              cache := map[];
            }
            cache := cache[r.id := Entry(r.obj, r.obj.kind)];
            if r.obj.kind.Some? {
              return r.obj.kind.value;
            }
          }
        }
        i := i + 1;
      }
      kind := Unknown;
    }
  }

  // ------------------------------------------------------------------ histories

  /** Which object each id names now, and the memo. */
  datatype World = World(live: map<Id, Obj>, cache: Cache)

  datatype Event =
    | Allocate(id: Id, obj: Obj)
    | Collect(id: Id)
    | Walked(frames: Frames)
    | Reset

  /** An id in use is not given out again; an object the memo holds is not collected. */
  ghost predicate Possible(w: World, e: Event) {
    match e
    case Allocate(id, _) => id !in w.live
    case Collect(id) => id in w.live && id !in w.cache
    case Walked(frames) => AllLive(w.live, frames)
    case Reset => true
  }

  function Happen(w: World, e: Event, depth: nat, max: nat): World {
    match e
    case Allocate(id, obj) => w.(live := w.live[id := obj])
    case Collect(id) => w.(live := w.live - {id})
    case Walked(frames) => w.(cache := Cached(w.cache, frames, depth, max).1)
    case Reset => w.(cache := map[])
  }

  /** Every remembered object is alive under its own id, with its own classification. */
  ghost predicate Held(live: map<Id, Obj>, cache: Cache) {
    forall id | id in cache :: HeldAt(live, id, cache[id])
  }

  predicate HeldAt(live: map<Id, Obj>, id: Id, e: Entry) {
    id in live && e.obj == live[id] && e.kind == live[id].kind
  }

  ghost predicate AllLive(live: map<Id, Obj>, frames: Frames) {
    forall i | 0 <= i < |frames| && frames[i].Some? :: IsLive(live, frames[i].value)
  }

  predicate IsLive(live: map<Id, Obj>, r: Ref) { r.id in live && live[r.id] == r.obj }

  lemma {:induction false} WalkAgrees(live: map<Id, Obj>, cache: Cache, frames: Frames, depth: nat, max: nat)
    requires max >= 1 && Held(live, cache) && |cache| <= max && AllLive(live, frames)
    ensures Cached(cache, frames, depth, max).0 == Uncached(frames, depth)
    ensures Held(live, Cached(cache, frames, depth, max).1) && |Cached(cache, frames, depth, max).1| <= max
    decreases depth
  {
    if depth > 0 && frames != [] {
      TailLive(live, frames);
      if frames[0].None? {
        WalkAgrees(live, cache, frames[1..], depth - 1, max);
      } else {
        RememberHolds(live, cache, frames[0].value, max);
        WalkAgrees(live, Remember(cache, frames[0].value, max), frames[1..], depth - 1, max);
      }
    }
  }

  lemma TailLive(live: map<Id, Obj>, frames: Frames)
    requires AllLive(live, frames) && frames != []
    ensures AllLive(live, frames[1..]) && (frames[0].Some? ==> IsLive(live, frames[0].value))
  {
  }

  lemma RememberHolds(live: map<Id, Obj>, cache: Cache, r: Ref, max: nat)
    requires max >= 1 && Held(live, cache) && |cache| <= max && IsLive(live, r)
    ensures Held(live, Remember(cache, r, max)) && |Remember(cache, r, max)| <= max
    ensures Known(cache, r) == r.obj.kind
  {
    if r.id in cache {
      assert HeldAt(live, r.id, cache[r.id]);
    } else {
      RememberFits(cache, r, max);
      forall id | id in Remember(cache, r, max) ensures HeldAt(live, id, Remember(cache, r, max)[id]) {
        if id != r.id { assert HeldAt(live, id, cache[id]); }
      }
    }
  }

  lemma RememberFits(cache: Cache, r: Ref, max: nat)
    requires max >= 1 && |cache| <= max && r.id !in cache
    ensures |Remember(cache, r, max)| <= max
  {
    var base: Cache := if |cache| >= max then map[] else cache;
    assert Remember(cache, r, max).Keys == base.Keys + {r.id};
  }

  ghost predicate History(w: World, es: seq<Event>, depth: nat, max: nat)
    decreases |es|
  {
    es == [] || (Possible(w, es[0]) && History(Happen(w, es[0], depth, max), es[1..], depth, max))
  }

  function After(w: World, es: seq<Event>, depth: nat, max: nat): World
    decreases |es|
  {
    if es == [] then w else After(Happen(w, es[0], depth, max), es[1..], depth, max)
  }

  lemma EventKeepsHeld(w: World, e: Event, depth: nat, max: nat)
    requires max >= 1 && Held(w.live, w.cache) && |w.cache| <= max && Possible(w, e)
    ensures var v := Happen(w, e, depth, max); Held(v.live, v.cache) && |v.cache| <= max
  {
    var v := Happen(w, e, depth, max);
    if e.Walked? {
      WalkAgrees(w.live, w.cache, e.frames, depth, max);
    } else {
      forall id | id in v.cache ensures HeldAt(v.live, id, v.cache[id]) {
        assert HeldAt(w.live, id, w.cache[id]);
      }
    }
  }

  lemma {:induction false} HistoryKeepsHeld(w: World, es: seq<Event>, depth: nat, max: nat)
    requires max >= 1 && Held(w.live, w.cache) && |w.cache| <= max && History(w, es, depth, max)
    ensures var v := After(w, es, depth, max); Held(v.live, v.cache) && |v.cache| <= max
    decreases |es|
  {
    if es != [] {
      EventKeepsHeld(w, es[0], depth, max);
      HistoryKeepsHeld(Happen(w, es[0], depth, max), es[1..], depth, max);
    }
  }

  /** After any history of allocations, collections, id reuse, walks, evictions and resets, a walk from
      live frames answers what the walk without a memo would, and the memo is within its bound. */
  lemma MemoIsTransparent(live: map<Id, Obj>, es: seq<Event>, frames: Frames, depth: nat, max: nat)
    requires max >= 1 && History(World(live, map[]), es, depth, max)
    requires Possible(After(World(live, map[]), es, depth, max), Walked(frames))
    ensures var w := After(World(live, map[]), es, depth, max);
      && Cached(w.cache, frames, depth, max).0 == Uncached(frames, depth)
      && |Cached(w.cache, frames, depth, max).1| <= max
  {
    HistoryKeepsHeld(World(live, map[]), es, depth, max);
    var w := After(World(live, map[]), es, depth, max);
    WalkAgrees(w.live, w.cache, frames, depth, max);
  }

  /** Were a remembered object collected and its id reused, the memo would answer for the dead one. */
  lemma CollectingARememberedObjectMisleads() returns (w: World, frames: Frames)
    ensures Held(w.live, w.cache) && !Possible(w, Collect(0))
    ensures var v := Happen(Happen(w, Collect(0), 12, CACHE_MAX), Allocate(0, Obj(1, Some(Gdn))), 12, CACHE_MAX);
      && Possible(v, Walked(frames))
      && Cached(v.cache, frames, 12, CACHE_MAX).0 == Qsa && Uncached(frames, 12) == Gdn
  {
    var old0, new0 := Obj(0, Some(Qsa)), Obj(1, Some(Gdn));
    w := World(map[0 := old0], map[0 := Entry(old0, Some(Qsa))]);
    assert w.cache[0].obj == w.live[0];
    frames := [Some(Ref(0, new0))];
  }
}
