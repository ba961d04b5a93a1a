/** Reference-linked smart pointers: all pointers to one object form a ring through the heap, and the
    last to leave deletes the object. The link of a pointer is folded into the pointer itself. */
module LinkedPtrs {
  import opened Wrappers

  /** Names the objects pointed to; `None` is the null pointer. */
  type ObjectId = nat

  // ----- rings

  /** Following `next` goes once round `ring`. */
  ghost predicate Closed(ring: seq<LinkedPtr>)
    reads ring
  {
    && ring != []
    && (forall i :: 0 <= i < |ring| ==> ring[i].next == ring[if i + 1 == |ring| then 0 else i + 1])
    && (forall i, j :: 0 <= i < j < |ring| ==> ring[i] != ring[j])
  }

  /** The same ring, begun at place k. */
  function Rotated<T>(s: seq<T>, k: nat): (r: seq<T>)
    requires k < |s|
    ensures |r| == |s|
    ensures forall i :: 0 <= i < |r| ==> r[i] in s
    ensures forall i :: 0 <= i < |s| ==> s[i] in r
  {
    var r := s[k..] + s[..k];
    assert forall i :: 0 <= i < |s| ==> s[i] == r[if i < k then i + |s| - k else i - k];
    r
  }

  lemma {:induction false} RotatedAt<T>(s: seq<T>, k: nat)
    requires k < |s|
    ensures forall i :: 0 <= i < |s| ==> Rotated(s, k)[i] == s[if i < |s| - k then i + k else i + k - |s|]
  {
  }

  lemma {:induction false} RotatedClosed(ring: seq<LinkedPtr>, k: nat)
    requires k < |ring| && Closed(ring)
    ensures Closed(Rotated(ring, k)) && Rotated(ring, k)[0] == ring[k]
  {
    hide Rotated;
    var r := Rotated(ring, k);
    var n := |ring|;
    RotatedAt(ring, k);
    forall i | 0 <= i < n ensures r[i].next == r[if i + 1 == n then 0 else i + 1] {
      var a := if i < n - k then i + k else i + k - n;
      assert r[i] == ring[a];
    }
  }

  lemma {:induction false} RingStep(ring: seq<LinkedPtr>, i: nat)
    requires Closed(ring) && i < |ring|
    ensures if i + 1 == |ring| then ring[i].next == ring[0]
            else ring[i].next == ring[i + 1] && ring[i].next in ring && ring[i].next != ring[0]
    ensures |ring| > 1 && i > 0 ==> ring[i].next != ring[1]
  {
    if i + 1 < |ring| {
      assert ring[i + 1] != ring[0];
      assert i > 0 ==> ring[i + 1] != ring[1];
    }
  }

  type Links = map<LinkedPtr, LinkedPtr?>

  /** The same, with the links given as a table. */
  ghost predicate ClosedIn(ring: seq<LinkedPtr>, links: Links)
  {
    && ring != []
    && (forall i :: 0 <= i < |ring| ==> ring[i] in links)
    && (forall i :: 0 <= i < |ring| ==> links[ring[i]] == ring[if i + 1 == |ring| then 0 else i + 1])
    && (forall i, j :: 0 <= i < j < |ring| ==> ring[i] != ring[j])
  }

  lemma {:induction false} ClosedByTable(ring: seq<LinkedPtr>, links: Links)
    requires forall i :: 0 <= i < |ring| ==> ring[i] in links && links[ring[i]] == ring[i].next
    ensures Closed(ring) <==> ClosedIn(ring, links)
  {
  }

  lemma {:induction false} UntouchedRingClosed(ring: seq<LinkedPtr>, links: Links, links': Links)
    requires ClosedIn(ring, links)
    requires forall i :: 0 <= i < |ring| ==> ring[i] in links' && links'[ring[i]] == links[ring[i]]
    ensures ClosedIn(ring, links')
  {
  }

  class LinkedPtr {
    var value: Option<ObjectId>
    var next: LinkedPtr?

    // ----- the link

    /** A circle of this pointer only. */
    method JoinNew()
      modifies this`next
      ensures Closed([this])
    {
      next := this;
    }

    /** Walks round the circle of `ptr` and enters it just before `ptr`. */
    method Join(ptr: LinkedPtr, ghost ring: seq<LinkedPtr>, ghost pred: LinkedPtr)
      requires Closed(ring) && pred == Last(ring) && ring[0] == ptr && this !in ring
      modifies this`next, pred`next
      ensures Closed(ring + [this])
    {
      var p := ptr;
      ghost var i := 0;
      while p.next != ptr
        invariant Closed(ring) && 0 <= i < |ring| && p == ring[i]
        decreases |ring| - i
      {
        RingStep(ring, i);
        assert p.next != this;
        p := p.next;
        i := i + 1;
      }
      RingStep(ring, i);
      p.next := this;
      next := ptr;
    }

    /** Leaves the circle; true iff nobody else was in it. */
    method Unlink(ghost ring: seq<LinkedPtr>, ghost pred: LinkedPtr) returns (last: bool)
      requires Closed(ring) && pred == Last(ring) && ring[0] == this
      modifies pred`next
      ensures last <==> |ring| == 1
      ensures last ==> next == old(next)
      ensures !last ==> Closed(ring[1..])
    {
      RingStep(ring, 0);
      if next == this {
        return true;
      }
      var p := next;
      ghost var i := 1;
      while p.next != this
        invariant Closed(ring) && 1 <= i < |ring| && p == ring[i] && next == ring[1]
        decreases |ring| - i
      {
        RingStep(ring, i);
        assert p.next != next;
        p := p.next;
        i := i + 1;
      }
      RingStep(ring, i);
      p.next := next;
      return false;
    }

    // ----- the pointer

    /** Unlinks the pointer, in memory and in the table of rings. */
    method LeaveRing(h: Heap, ghost ring: seq<LinkedPtr>) returns (last: bool)
      requires h.Ok() && this in h.ringOf && ring == h.RingFrom(this)
      modifies h`ringOf, h.ringOf.Keys`next
      ensures last <==> |ring| == 1
      ensures h.ringOf == Without(old(h.ringOf), this, ring)
      ensures AllClosed(h.ringOf, h.LinksNow())
    {
      hide Partition, Sharing, BegunAt, AllClosed, ClosedIn, Closed, Without;
      ghost var rings, links := h.ringOf, h.LinksNow();
      last := Unlink(ring, Last(ring));
      h.ringOf := Without(rings, this, ring);
      if !last {
        assert forall i :: 0 <= i < |ring[1..]| ==> ring[1..][i] in ring[1..];
        h.ClosedNow(ring[1..]);
      }
      ClosedAfterUnlink(rings, links, h.LinksNow(), this, ring);
    }

    /** Leaves the circle and deletes the object when nobody else was in it. */
    method Depart(h: Heap)
      requires h.Ok() && this in h.ringOf
      modifies h`ringOf, h`deleted, h.ringOf.Keys`next
      ensures h.Ok() && h.Abs() == old(h.Abs()).Departed(this)
    {
      hide Partition, Sharing, BegunAt, AllClosed, Without, Closed, Shares.Shared;
      ghost var rings, s := h.ringOf, h.Abs();
      ghost var ring := h.RingFrom(this);
      AloneIffSoleHolder(rings, s, this, ring);
      DepartureKeepsSharing(rings, s, this, ring);
      assert s.holds[this] == value && s.deleted == h.deleted;
      var last := LeaveRing(h, ring);
      if last && value.Some? {
        h.deleted := h.deleted + [value.value];
      }
      h.HoldsAre(s.holds - {this});
      assert h.Abs() == s.Departed(this);
    }

    /** Takes over a fresh object, or null, alone. */
    method Capture(h: Heap, v: Option<ObjectId>)
      requires h.Ok() && this !in h.ringOf
      requires v.Some? ==> v.value !in h.captured
      modifies h`ringOf, h`captured, this
      ensures h.Ok() && h.Abs() == old(h.Abs()).Captured(this, v)
    {
      hide Partition, Sharing, AllClosed;
      ghost var rings, s, links := h.ringOf, h.Abs(), h.LinksNow();
      AlonePointerKeepsSharing(rings, s, this, v);
      value := v;
      JoinNew();
      RingStep([this], 0);
      h.ringOf := rings[this := [this]];
      h.captured := h.captured + (if v.Some? then {v.value} else {});
      h.HoldsAre(s.holds[this := v]);
      ClosedAfterAlone(rings, links, h.LinksNow(), this);
    }

    /** Links the pointer into a circle, in memory and in the table of rings. */
    method EnterRing(h: Heap, ptr: LinkedPtr, ghost ring: seq<LinkedPtr>)
      requires h.Ok() && this !in h.ringOf && ptr in h.ringOf && ring == h.RingFrom(ptr)
      modifies h`ringOf, this`next, h.ringOf.Keys`next
      ensures h.ringOf == With(old(h.ringOf), this, ring)
      ensures AllClosed(h.ringOf, h.LinksNow())
    {
      hide Partition, Sharing, BegunAt, AllClosed, ClosedIn, Closed, With;
      ghost var rings, links := h.ringOf, h.LinksNow();
      Join(ptr, ring, Last(ring));
      h.ringOf := With(rings, this, ring);
      h.ClosedNow(ring + [this]);
      ClosedAfterJoin(rings, links, h.LinksNow(), this, ptr, ring);
    }

    /** Shares what `ptr` points to, in the circle of `ptr`; a null pointer is not shared. */
    method Copy(h: Heap, ptr: LinkedPtr)
      requires h.Ok() && this !in h.ringOf && ptr in h.ringOf
      modifies h`ringOf, this, h.ringOf.Keys`next
      ensures h.Ok() && h.Abs() == old(h.Abs()).Copied(this, ptr)
    {
      hide Partition, Sharing, BegunAt, AllClosed, ClosedIn, Closed, With;
      ghost var rings, s, links := h.ringOf, h.Abs(), h.LinksNow();
      ghost var ring := h.RingFrom(ptr);
      value := ptr.value;
      assert h.Abs() == s && h.LinksNow() == links;
      if value.Some? {
        CopyKeepsSharing(rings, s, this, ptr, ring);
        EnterRing(h, ptr, ring);
      } else {
        AlonePointerKeepsSharing(rings, s, this, None);
        assert s.Captured(this, None) == s.Copied(this, ptr);
        JoinNew();
        RingStep([this], 0);
        h.ringOf := rings[this := [this]];
        ClosedAfterAlone(rings, links, h.LinksNow(), this);
      }
      h.HoldsAre(s.holds[this := s.holds[ptr]]);
    }

    // ----- what a program may do with it

    constructor (h: Heap, v: Option<ObjectId>)
      requires h.Ok() && (v.Some? ==> v.value !in h.captured)
      modifies h`ringOf, h`captured
      ensures this !in old(h.ringOf)
      ensures value == v && h.ringOf.Keys == old(h.ringOf.Keys) + {this} && h.deleted == old(h.deleted)
      ensures forall q :: q in old(h.ringOf) ==> q.value == old(q.value)
      ensures h.Ok() && old(h.Abs()).Leads(New(this, v), h.Abs())
    {
      value, next := None, null;
      new;
      hide Partition, Sharing, AllClosed, Shares.Shared, Heap.Orphan;
      assert h.LinksNow() == old(h.LinksNow()) && h.Abs() == old(h.Abs());
      hide Heap.LinksNow, Heap.Abs;
      h.HoldsNow();
      Capture(h, v);
      h.HoldsNow();
    }

    constructor CopyOf(h: Heap, ptr: LinkedPtr)
      requires h.Ok() && ptr in h.ringOf
      modifies h`ringOf, h.ringOf.Keys`next
      ensures this !in old(h.ringOf)
      ensures value == ptr.value && h.ringOf.Keys == old(h.ringOf.Keys) + {this} && h.deleted == old(h.deleted)
      ensures forall q :: q in old(h.ringOf) ==> q.value == old(q.value)
      ensures h.Ok() && old(h.Abs()).Leads(CopyNew(this, ptr), h.Abs())
    {
      value, next := None, null;
      new;
      hide Partition, Sharing, AllClosed, Shares.Shared, Heap.Orphan;
      assert h.LinksNow() == old(h.LinksNow()) && h.Abs() == old(h.Abs());
      hide Heap.LinksNow, Heap.Abs;
      h.HoldsNow();
      Copy(h, ptr);
      h.HoldsNow();
    }

    /** Departs, then shares what `ptr` points to; nothing happens on self-assignment. */
    method Assign(h: Heap, ptr: LinkedPtr)
      requires h.Ok() && this in h.ringOf && ptr in h.ringOf
      modifies h`ringOf, h`deleted, this, h.ringOf.Keys`next
      ensures value == old(ptr.value) && h.ringOf.Keys == old(h.ringOf.Keys)
      ensures forall q :: q in old(h.ringOf) && q != this ==> q.value == old(q.value)
      ensures h.deleted == old(h.deleted) + if this != ptr then old(h.Orphan(this)) else []
      ensures h.Ok() && old(h.Abs()).Leads(Op.Assign(this, ptr), h.Abs())
    {
      hide Partition, Sharing, AllClosed, Shares.Shared, Heap.Orphan, Heap.LinksNow;
      h.HoldsNow();
      if ptr != this {
        Depart(h);
        h.HoldsNow();
        Copy(h, ptr);
        h.HoldsNow();
      }
    }

    method Reset(h: Heap, v: Option<ObjectId>)
      requires h.Ok() && this in h.ringOf && (v.Some? ==> v.value !in h.captured)
      modifies h`ringOf, h`captured, h`deleted, this, h.ringOf.Keys`next
      ensures value == v && h.ringOf.Keys == old(h.ringOf.Keys)
      ensures forall q :: q in old(h.ringOf) && q != this ==> q.value == old(q.value)
      ensures h.deleted == old(h.deleted) + old(h.Orphan(this))
      ensures h.Ok() && old(h.Abs()).Leads(Op.Reset(this, v), h.Abs())
    {
      hide Partition, Sharing, AllClosed, Shares.Shared, Heap.Orphan, Heap.LinksNow;
      h.HoldsNow();
      Depart(h);
      h.HoldsNow();
      Capture(h, v);
      h.HoldsNow();
    }

    /** The destructor. */
    method Destroy(h: Heap)
      requires h.Ok() && this in h.ringOf
      modifies h`ringOf, h`deleted, h.ringOf.Keys`next
      ensures h.ringOf.Keys == old(h.ringOf.Keys) - {this}
      ensures forall q :: q in h.ringOf ==> q.value == old(q.value)
      ensures h.deleted == old(h.deleted) + old(h.Orphan(this))
      ensures h.Ok() && old(h.Abs()).Leads(Op.Destroy(this), h.Abs())
    {
      hide Partition, Sharing, AllClosed, Shares.Shared, Heap.Orphan, Heap.LinksNow;
      h.HoldsNow();
      Depart(h);
      h.HoldsNow();
    }
  }

  /** The rings once `p` has left its own, which is `ring` begun at `p`. */
  ghost function Without(rings: map<LinkedPtr, seq<LinkedPtr>>, p: LinkedPtr, ring: seq<LinkedPtr>): (r: map<LinkedPtr, seq<LinkedPtr>>)
    requires ring != []
    ensures r.Keys == rings.Keys - {p}
  {
    map q | q in rings && q != p :: if q in ring then ring[1..] else rings[q]
  }

  /** The rings once `p` has entered `ring` at its end. */
  ghost function With(rings: map<LinkedPtr, seq<LinkedPtr>>, p: LinkedPtr, ring: seq<LinkedPtr>): (r: map<LinkedPtr, seq<LinkedPtr>>)
    ensures r.Keys == rings.Keys + {p}
  {
    map q | q in rings.Keys + {p} :: if q == p || q in ring then ring + [p] else rings[q]
  }

  // ----- what pointers and objects there are

  datatype Op =
    | New(p: LinkedPtr, v: Option<ObjectId>)
    | CopyNew(p: LinkedPtr, from: LinkedPtr)
    | Assign(p: LinkedPtr, from: LinkedPtr)
    | Reset(p: LinkedPtr, v: Option<ObjectId>)
    | Destroy(p: LinkedPtr)

  /** Which live pointer holds which object, the objects ever taken over, and those deleted, in order. */
  datatype Shares = Shares(holds: map<LinkedPtr, Option<ObjectId>>, captured: set<ObjectId>, deleted: seq<ObjectId>)
  {
    ghost predicate Held(o: ObjectId) { exists q :: q in holds && holds[q] == Some(o) }

    /** Somebody other than `p` holds the object of `p`. */
    ghost predicate Shared(p: LinkedPtr)
      requires p in holds
    {
      exists q :: q in holds && q != p && holds[q] == holds[p]
    }

    /** `p` lets go: what nobody else holds is deleted. */
    ghost function Departed(p: LinkedPtr): Shares
      requires p in holds
    {
      this.(holds := holds - {p},
            deleted := if holds[p].Some? && !Shared(p) then deleted + [holds[p].value] else deleted)
    }

    ghost function Captured(p: LinkedPtr, v: Option<ObjectId>): Shares
    {
      this.(holds := holds[p := v], captured := captured + (if v.Some? then {v.value} else {}))
    }

    ghost function Copied(p: LinkedPtr, from: LinkedPtr): Shares
      requires from in holds
    {
      this.(holds := holds[p := holds[from]])
    }

    /** What the type asks of its users: pointers exist before they are used, and a raw object is handed
        over only once. */
    ghost predicate Allows(op: Op)
    {
      match op
      case New(p, v) => p !in holds && (v.Some? ==> v.value !in captured)
      case CopyNew(p, from) => p !in holds && from in holds
      case Assign(p, from) => p in holds && from in holds
      case Reset(p, v) => p in holds && (v.Some? ==> v.value !in captured)
      case Destroy(p) => p in holds
    }

    ghost function Step(op: Op): Shares
      requires Allows(op)
    {
      match op
      case New(p, v) => Captured(p, v)
      case CopyNew(p, from) => Copied(p, from)
      case Assign(p, from) => if p == from then this else Departed(p).Copied(p, from)
      case Reset(p, v) => Departed(p).Captured(p, v)
      case Destroy(p) => Departed(p)
    }

    /** The operation is allowed, and this is what it leads to. */
    ghost predicate Leads(op: Op, s: Shares) { Allows(op) && s == Step(op) }

    /** Every object taken over is either held or deleted, and deleted once at most. */
    ghost predicate Accounted()
    {
      && (forall o: ObjectId :: o in captured <==> Held(o) || o in deleted)
      && (forall o: ObjectId :: o in deleted ==> !Held(o))
      && (forall i, j :: 0 <= i < j < |deleted| ==> deleted[i] != deleted[j])
    }
  }

  // ----- over whole runs

  ghost predicate Permitted(s: Shares, ops: seq<Op>)
    decreases |ops|, 0
  {
    ops == [] || (Permitted(s, Front(ops)) && After(s, Front(ops)).Allows(Last(ops)))
  }

  ghost function After(s: Shares, ops: seq<Op>): Shares
    requires Permitted(s, ops)
    decreases |ops|, 1
  {
    if ops == [] then s else After(s, Front(ops)).Step(Last(ops))
  }

  const NOTHING := Shares(map[], {}, [])

  /** One departure: the object goes exactly when its last holder does. */
  lemma {:induction false} DepartureAccounts(s: Shares, p: LinkedPtr)
    requires s.Accounted() && p in s.holds
    ensures s.Departed(p).Accounted()
    ensures forall o: ObjectId :: s.Departed(p).Held(o) <==> exists q :: q in s.holds && q != p && s.holds[q] == Some(o)
    ensures forall o: ObjectId :: o in s.Departed(p).deleted && o !in s.deleted <==> s.Held(o) && !s.Departed(p).Held(o)
  {
    var s' := s.Departed(p);
    forall o: ObjectId ensures s'.Held(o) <==> exists q :: q in s.holds && q != p && s.holds[q] == Some(o) {
      if q :| q in s.holds && q != p && s.holds[q] == Some(o) { assert q in s'.holds; }
    }
    if s.holds[p].Some? {
      var x := s.holds[p].value;
      assert s.Held(x);
      assert s.Shared(p) <==> s'.Held(x);
      assert forall o: ObjectId :: o != x ==> (s.Held(o) <==> s'.Held(o));
    } else {
      assert forall o: ObjectId :: s.Held(o) <==> s'.Held(o);
    }
  }

  lemma {:induction false} GainAccounts(s: Shares, p: LinkedPtr, v: Option<ObjectId>)
    requires s.Accounted() && p !in s.holds
    ensures v.Some? && v.value !in s.captured ==> s.Captured(p, v).Accounted()
    ensures v.None? || s.Held(v.value) ==> s.(holds := s.holds[p := v]).Accounted()
    ensures forall o: ObjectId :: s.(holds := s.holds[p := v]).Held(o) <==> s.Held(o) || v == Some(o)
  {
    var s' := s.(holds := s.holds[p := v]);
    forall o: ObjectId ensures s'.Held(o) <==> s.Held(o) || v == Some(o) {
      if v == Some(o) { assert s'.holds[p] == Some(o); }
      if q :| q in s.holds && s.holds[q] == Some(o) { assert s'.holds[q] == Some(o); }
    }
    assert forall o: ObjectId :: s.Captured(p, v).Held(o) <==> s'.Held(o);
  }

  /** One operation keeps the account, and deletes exactly what it leaves without a holder. */
  lemma {:induction false} StepAccounts(s: Shares, op: Op)
    requires s.Accounted() && s.Allows(op)
    ensures s.Step(op).Accounted()
    ensures forall o: ObjectId :: o in s.Step(op).deleted && o !in s.deleted <==> s.Held(o) && !s.Step(op).Held(o)
  {
    match op {
      case New(p, v) => GainAccounts(s, p, v);
      case CopyNew(p, from) => GainAccounts(s, p, s.holds[from]);
      case Assign(p, from) =>
        if p != from {
          DepartureAccounts(s, p);
          GainAccounts(s.Departed(p), p, s.holds[from]);
        }
      case Reset(p, v) =>
        DepartureAccounts(s, p);
        GainAccounts(s.Departed(p), p, v);
      case Destroy(p) => DepartureAccounts(s, p);
    }
  }

  /** After any run from nothing, the objects taken over are those held and those deleted, no object was
      deleted twice, and none that is still held. */
  lemma {:induction false} RunsAccount(ops: seq<Op>)
    requires Permitted(NOTHING, ops)
    ensures After(NOTHING, ops).Accounted()
  {
    if ops != [] {
      RunsAccount(Front(ops));
      StepAccounts(After(NOTHING, Front(ops)), Last(ops));
    }
  }

  /** When all pointers are gone, every object taken over has been deleted exactly once. */
  lemma {:induction false} NothingLeaks(ops: seq<Op>)
    requires Permitted(NOTHING, ops) && After(NOTHING, ops).holds == map[]
    ensures multiset(After(NOTHING, ops).deleted) == multiset(After(NOTHING, ops).captured)
  {
    RunsAccount(ops);
    var s := After(NOTHING, ops);
    assert forall o: ObjectId :: !s.Held(o);
    DistinctSeqAsMultiset(s.deleted, s.captured);
  }

  lemma {:induction false} DistinctSeqAsMultiset(d: seq<ObjectId>, c: set<ObjectId>)
    requires forall i, j :: 0 <= i < j < |d| ==> d[i] != d[j]
    requires forall o: ObjectId :: o in c <==> o in d
    ensures multiset(d) == multiset(c)
  {
    if d == [] {
      assert c == {};
    } else {
      var x := Last(d);
      assert d == Front(d) + [x];
      DistinctSeqAsMultiset(Front(d), c - {x});
      assert c == (c - {x}) + {x};
    }
  }

  type Rings = map<LinkedPtr, seq<LinkedPtr>>

  /** Every live pointer lies on one ring of live pointers, its own. */
  ghost predicate Partition(rings: Rings)
  {
    forall p :: p in rings ==> p in rings[p] && forall q :: q in rings[p] ==> q in rings && rings[q] == rings[p]
  }

  /** Two pointers are on one ring exactly when they share an object. */
  ghost predicate Sharing(rings: Rings, s: Shares)
  {
    && rings.Keys == s.holds.Keys
    && (forall p, q :: p in rings && q in rings && p != q ==>
          (rings[p] == rings[q] <==> s.holds[p].Some? && s.holds[p] == s.holds[q]))
    && (forall p :: p in rings && s.holds[p].Some? ==> s.holds[p].value in s.captured)
  }

  /** `ring` is the ring of `p` begun at `p`. */
  ghost predicate BegunAt(rings: Rings, p: LinkedPtr, ring: seq<LinkedPtr>)
  {
    && p in rings && ring != [] && ring[0] == p && p !in ring[1..]
    && (forall q :: q in ring ==> q in rings[p])
    && (forall q :: q in rings[p] ==> q in ring)
  }

  /** A ring has one member exactly when nobody else shares the object. */
  lemma {:induction false} AloneIffSoleHolder(rings: Rings, s: Shares, p: LinkedPtr, ring: seq<LinkedPtr>)
    requires Partition(rings) && Sharing(rings, s) && BegunAt(rings, p, ring)
    ensures |ring| == 1 <==> !(s.holds[p].Some? && s.Shared(p))
  {
    if |ring| > 1 {
      var q := ring[1];
      assert q in ring[1..] && q in ring;
      assert q in rings[p] && rings[q] == rings[p];
      assert s.Shared(p);
    }
    if s.holds[p].Some? && s.Shared(p) {
      var q :| q in s.holds && q != p && s.holds[q] == s.holds[p];
      assert rings[q] == rings[p] && q in rings[q];
      assert q in ring;
    }
  }

  lemma {:induction false} OthersApart(rings: Rings, p: LinkedPtr, ring: seq<LinkedPtr>)
    requires Partition(rings) && BegunAt(rings, p, ring)
    ensures forall q, x :: q in rings && q !in ring && x in rings[q] ==> x !in ring
  {
  }

  lemma {:induction false} OutsiderApart(rings: Rings, p: LinkedPtr)
    requires Partition(rings) && p !in rings
    ensures forall q :: q in rings ==> p !in rings[q]
  {
  }

  /** On which ring two of the remaining pointers lie is as before. */
  lemma {:induction false} DeparturePairs(rings: Rings, p: LinkedPtr, ring: seq<LinkedPtr>, a: LinkedPtr, b: LinkedPtr)
    requires Partition(rings) && BegunAt(rings, p, ring) && a in rings && b in rings && a != p && b != p
    ensures a in Without(rings, p, ring)[a]
    ensures Without(rings, p, ring)[a] == Without(rings, p, ring)[b] <==> rings[a] == rings[b]
    ensures b in Without(rings, p, ring)[a] ==> Without(rings, p, ring)[b] == Without(rings, p, ring)[a]
  {
    assert ring == [p] + ring[1..];
    OthersApart(rings, p, ring);
    assert a in rings[a] && b in rings[b];
    assert b in ring[1..] ==> b in ring;
  }

  lemma {:induction false} DepartureKeepsSharing(rings: Rings, s: Shares, p: LinkedPtr, ring: seq<LinkedPtr>)
    requires Partition(rings) && Sharing(rings, s) && BegunAt(rings, p, ring)
    ensures Partition(Without(rings, p, ring)) && Sharing(Without(rings, p, ring), s.Departed(p))
  {
    var rings' := Without(rings, p, ring);
    forall a, b | a in rings' && b in rings'
      ensures a in rings'[a] && (rings'[a] == rings'[b] <==> rings[a] == rings[b]) && (b in rings'[a] ==> rings'[b] == rings'[a])
    {
      DeparturePairs(rings, p, ring, a, b);
    }
    forall a, x | a in rings' && x in rings'[a] ensures x in rings' {
      assert ring == [p] + ring[1..];
      assert x in ring[1..] ==> x in ring;
      OthersApart(rings, p, ring);
    }
  }

  lemma {:induction false} AlonePointerKeepsSharing(rings: Rings, s: Shares, p: LinkedPtr, v: Option<ObjectId>)
    requires Partition(rings) && Sharing(rings, s) && p !in rings
    requires v.Some? ==> v.value !in s.captured
    ensures Partition(rings[p := [p]]) && Sharing(rings[p := [p]], s.Captured(p, v))
  {
    OutsiderApart(rings, p);
  }

  lemma {:induction false} CopyPairs(rings: Rings, p: LinkedPtr, from: LinkedPtr, ring: seq<LinkedPtr>, a: LinkedPtr, b: LinkedPtr)
    requires Partition(rings) && BegunAt(rings, from, ring) && p !in rings && a in rings && b in rings
    ensures With(rings, p, ring)[a] == With(rings, p, ring)[b] <==> rings[a] == rings[b]
    ensures With(rings, p, ring)[a] == With(rings, p, ring)[p] <==> rings[a] == rings[from]
    ensures a in With(rings, p, ring)[a]
    ensures b in With(rings, p, ring)[a] ==> With(rings, p, ring)[b] == With(rings, p, ring)[a]
  {
    OutsiderApart(rings, p);
    OthersApart(rings, from, ring);
    assert a in rings[a] && b in rings[b];
    assert from in rings[from] && from in ring;
    assert p in ring + [p];
    assert a in ring ==> a in ring + [p];
    assert b in ring + [p] ==> b in ring;
  }

  lemma {:induction false} CopyMembers(rings: Rings, p: LinkedPtr, from: LinkedPtr, ring: seq<LinkedPtr>)
    requires Partition(rings) && BegunAt(rings, from, ring) && p !in rings
    ensures var rings' := With(rings, p, ring);
            && (forall a, x :: a in rings' && x in rings'[a] ==> x in rings')
            && p in rings'[p]
            && (forall x :: x in rings'[p] ==> rings'[x] == rings'[p])
            && (forall a :: a in rings && p in rings'[a] ==> rings'[a] == rings'[p])
  {
    OutsiderApart(rings, p);
    assert forall x :: x in ring + [p] ==> x in ring || x == p;
    assert p == (ring + [p])[|ring|];
  }

  lemma {:induction false} CopyKeepsPartition(rings: Rings, p: LinkedPtr, from: LinkedPtr, ring: seq<LinkedPtr>)
    requires Partition(rings) && p !in rings && BegunAt(rings, from, ring)
    ensures Partition(With(rings, p, ring))
  {
    var rings' := With(rings, p, ring);
    forall a, b | a in rings && b in rings
      ensures a in rings'[a] && (b in rings'[a] ==> rings'[b] == rings'[a])
    {
      CopyPairs(rings, p, from, ring, a, b);
    }
    CopyMembers(rings, p, from, ring);
    hide With, BegunAt;
    forall a | a in rings' ensures a in rings'[a] && forall x :: x in rings'[a] ==> x in rings' && rings'[x] == rings'[a] {
      if a in rings {
        forall x | x in rings'[a] ensures x in rings' && rings'[x] == rings'[a] {
          if x != p { assert x in rings; }
        }
      }
    }
  }

  lemma {:induction false} CopyKeepsSharing(rings: Rings, s: Shares, p: LinkedPtr, from: LinkedPtr, ring: seq<LinkedPtr>)
    requires Partition(rings) && Sharing(rings, s) && p !in rings && BegunAt(rings, from, ring)
    requires s.holds[from].Some?
    ensures Partition(With(rings, p, ring)) && Sharing(With(rings, p, ring), s.Copied(p, from))
  {
    hide Partition, With, BegunAt;
    CopyKeepsPartition(rings, p, from, ring);
    BegunIsLive(rings, from, ring);
    var rings', s' := With(rings, p, ring), s.Copied(p, from);
    forall a, b | a in rings' && b in rings' && a != b
      ensures rings'[a] == rings'[b] <==> s'.holds[a].Some? && s'.holds[a] == s'.holds[b]
    {
      var x, y := if a == p then b else a, if b == p then a else b;
      CopyPairs(rings, p, from, ring, x, y);
    }
  }

  lemma {:induction false} BegunIsLive(rings: Rings, p: LinkedPtr, ring: seq<LinkedPtr>)
    requires BegunAt(rings, p, ring)
    ensures p in rings
  {
  }

  // ----- the rings in memory

  /** Every pointer's ring is closed under the links. */
  ghost predicate AllClosed(rings: Rings, links: Links)
  {
    forall p :: p in rings ==> ClosedIn(rings[p], links)
  }

  /** The links of all live pointers but `pred` are as before. */
  ghost predicate SameLinksBut(links: Links, links': Links, pred: LinkedPtr)
  {
    forall q :: q in links' && q in links && q != pred ==> links'[q] == links[q]
  }

  lemma {:induction false} RingStaysClosed(rings: Rings, q: LinkedPtr, links: Links, links': Links, pred: LinkedPtr)
    requires AllClosed(rings, links) && q in rings && SameLinksBut(links, links', pred)
    requires pred !in rings[q] && forall x :: x in rings[q] ==> x in links'
    ensures ClosedIn(rings[q], links')
  {
    assert forall i :: 0 <= i < |rings[q]| ==> rings[q][i] in rings[q];
    UntouchedRingClosed(rings[q], links, links');
  }

  /** A ring that does not touch `ring` survives a change of one of its links. */
  lemma {:induction false} OtherRingStaysClosed(rings: Rings, p: LinkedPtr, ring: seq<LinkedPtr>, q: LinkedPtr, links: Links, links': Links)
    requires Partition(rings) && BegunAt(rings, p, ring) && AllClosed(rings, links)
    requires q in rings && q !in ring && SameLinksBut(links, links', Last(ring))
    requires rings.Keys - {p} <= links'.Keys
    ensures ClosedIn(rings[q], links')
  {
    OthersApart(rings, p, ring);
    assert p in ring && Last(ring) in ring;
    RingStaysClosed(rings, q, links, links', Last(ring));
  }

  lemma {:induction false} ClosedAfterUnlink(rings: Rings, links: Links, links': Links, p: LinkedPtr, ring: seq<LinkedPtr>)
    requires Partition(rings) && BegunAt(rings, p, ring) && AllClosed(rings, links)
    requires links'.Keys == rings.Keys - {p} && SameLinksBut(links, links', Last(ring))
    requires |ring| > 1 ==> ClosedIn(ring[1..], links')
    ensures AllClosed(Without(rings, p, ring), links')
  {
    hide ClosedIn, Partition, SameLinksBut;
    var rings' := Without(rings, p, ring);
    forall q | q in rings' ensures ClosedIn(rings'[q], links') {
      if q !in ring {
        OtherRingStaysClosed(rings, p, ring, q, links, links');
      } else {
        assert |ring| == 1 ==> ring == [p];
      }
    }
  }

  lemma {:induction false} ClosedAfterJoin(rings: Rings, links: Links, links': Links, p: LinkedPtr, from: LinkedPtr, ring: seq<LinkedPtr>)
    requires Partition(rings) && BegunAt(rings, from, ring) && p !in rings && AllClosed(rings, links)
    requires links'.Keys == rings.Keys + {p} && SameLinksBut(links, links', Last(ring))
    requires ClosedIn(ring + [p], links')
    ensures AllClosed(With(rings, p, ring), links')
  {
    hide ClosedIn, Partition, SameLinksBut;
    var rings' := With(rings, p, ring);
    forall q | q in rings' ensures ClosedIn(rings'[q], links') {
      if q != p && q !in ring {
        OtherRingStaysClosed(rings, from, ring, q, links, links');
      }
    }
  }

  lemma {:induction false} ClosedAfterAlone(rings: Rings, links: Links, links': Links, p: LinkedPtr)
    requires Partition(rings) && p !in rings && AllClosed(rings, links)
    requires links'.Keys == rings.Keys + {p} && SameLinksBut(links, links', p) && links'[p] == p
    ensures AllClosed(rings[p := [p]], links')
  {
    OutsiderApart(rings, p);
    forall q | q in rings ensures ClosedIn(rings[q], links') {
      RingStaysClosed(rings, q, links, links', p);
    }
  }

  class Heap {
    ghost var ringOf: Rings
    ghost var captured: set<ObjectId>
    var deleted: seq<ObjectId>

    constructor ()
      ensures Ok() && Abs() == NOTHING
    {
      ringOf, captured, deleted := map[], {}, [];
    }

    ghost function Abs(): Shares
      reads this, ringOf.Keys
    {
      Shares(map p | p in ringOf :: p.value, captured, deleted)
    }

    /** The object of `p`, if no other live pointer holds it. */
    ghost function Orphan(p: LinkedPtr): seq<ObjectId>
      reads this, ringOf.Keys, p
    {
      if p.value.Some? && forall q :: q in ringOf && q != p ==> q.value != p.value then [p.value.value] else []
    }

    lemma {:induction false} HoldsNow()
      ensures Abs().holds.Keys == ringOf.Keys && Abs().captured == captured && Abs().deleted == deleted
      ensures forall p :: p in ringOf ==> Abs().holds[p] == p.value
      ensures forall p :: p in ringOf ==> Orphan(p) == if p.value.Some? && !Abs().Shared(p) then [p.value.value] else []
    {
      var s := Abs();
      forall p | p in ringOf ensures Orphan(p) == if p.value.Some? && !s.Shared(p) then [p.value.value] else [] {
        if q :| q in ringOf && q != p && q.value == p.value { assert s.holds[q] == s.holds[p]; }
      }
    }

    ghost function LinksNow(): Links
      reads this`ringOf, ringOf.Keys`next
    {
      map p | p in ringOf :: p.next
    }

    /** The rings partition the live pointers by the object they share, and are closed in memory. */
    ghost predicate Ok()
      reads this, ringOf.Keys
    {
      Partition(ringOf) && Sharing(ringOf, Abs()) && AllClosed(ringOf, LinksNow())
    }

    lemma {:induction false} ClosedNow(ring: seq<LinkedPtr>)
      requires forall i :: 0 <= i < |ring| ==> ring[i] in ringOf
      requires Closed(ring)
      ensures ClosedIn(ring, LinksNow())
    {
      ClosedByTable(ring, LinksNow());
    }

    lemma {:induction false} HoldsAre(m: map<LinkedPtr, Option<ObjectId>>)
      requires ringOf.Keys == m.Keys && forall p :: p in m ==> p.value == m[p]
      ensures Abs().holds == m
    {
    }

    /** The ring of `p`, begun at `p`. */
    ghost function RingFrom(p: LinkedPtr): (ring: seq<LinkedPtr>)
      requires Ok() && p in ringOf
      reads this, ringOf.Keys
      ensures Closed(ring) && ring[0] == p && BegunAt(ringOf, p, ring)
      ensures forall i :: 0 <= i < |ring| ==> ring[i] in ringOf
      ensures p !in ring[1..]
    {
      var k :| 0 <= k < |ringOf[p]| && ringOf[p][k] == p;
      ClosedByTable(ringOf[p], LinksNow());
      RotatedClosed(ringOf[p], k);
      Rotated(ringOf[p], k)
    }
  }
}
