/** Modifiers that remap the events a layer emits: the `ArrayLayer` and
    `SerializingLayer` strategies of the `EventRemapper` interface. */
module Remappers {

  import opened Events
  import opened Arithmetic

  /** Errors detected when a modifier is constructed. */
  datatype ConfigError = NonPositiveSize

  datatype Result<T> = Ok(value: T) | Err(error: ConfigError)

  /** An event remapper. `ArrayLayer` emits `{t, k, y, 0}`; a
      `SerializingLayer(w, h)` flattens `(x, y, k)` into the single index
      `w*h*k + w*y + x` of a `w x h x K` context. */
  datatype EventRemapper = ArrayLayer | SerializingLayer(w: nat, h: nat)
  {
    /** The event emitted for input `ev` assigned to cluster `k`. Every
        remapper keeps the timestamp. */
    function RemapEvent(ev: Event, k: nat): (r: Event)
      ensures r.t == ev.t
      ensures ArrayLayer? ==> r.x == k && r.y == ev.y && r.p == 0
      ensures SerializingLayer? ==> r.x == SerialIndex(w, h, ev.x, ev.y, k) && r.y == 0 && r.p == 0
    {
      match this
      case ArrayLayer => Event(ev.t, k, ev.y, 0)
      case SerializingLayer(w, h) => Event(ev.t, w * h * k + w * ev.y + ev.x, 0, 0)
    }

    /** The context size a `SerializingLayer` was built with. */
    function GetSize(): (r: (nat, nat))
      requires SerializingLayer?
      ensures r == (w, h)
    {
      (w, h)
    }
  }

  /** Construction of a `SerializingLayer`: both sizes must be positive. */
  function NewSerializingLayer(width: nat, height: nat): (r: Result<EventRemapper>)
    ensures r.Ok? <==> width > 0 && height > 0
    ensures r.Ok? ==> r.value.SerializingLayer? && r.value.GetSize() == (width, height)
  {
    if width == 0 || height == 0 then Err(NonPositiveSize)
    else Ok(SerializingLayer(width, height))
  }

  /** The linear index of position `(x, y)` in cluster plane `k` of a
      `w x h` context. */
  function SerialIndex(w: nat, h: nat, x: nat, y: nat, k: nat): nat
  {
    w * h * k + w * y + x
  }

  /** The position and cluster a linear index stands for. */
  function Unserialize(w: nat, h: nat, index: nat): (r: (nat, nat, nat))
    requires w > 0 && h > 0
    ensures r.0 < w && r.1 < h
  {
    (index % w, (index / w) % h, index / (w * h))
  }

  /** Round trip: with `x < w` and `y < h`, the serialized index decodes
      back to `(x, y, k)`. */
  lemma UnserializeSerialIndex(w: nat, h: nat, x: nat, y: nat, k: nat)
    requires x < w && y < h
    ensures Unserialize(w, h, SerialIndex(w, h, x, y, k)) == (x, y, k)
  {
    var n := SerialIndex(w, h, x, y, k);
    assert n == (h * k + y) * w + x;
    DivModUnique(n, w, h * k + y, x);
    DivModUnique(h * k + y, h, k, y);
    DivDiv(n, w, h);
  }

  /** The other direction: every index is the serialization of the position
      and cluster it decodes to. */
  lemma SerialIndexUnserialize(w: nat, h: nat, index: nat)
    requires w > 0 && h > 0
    ensures var (x, y, k) := Unserialize(w, h, index);
            SerialIndex(w, h, x, y, k) == index
  {
    var a := index / w;
    assert index == a * w + index % w;
    assert a == (a / h) * h + a % h;
    DivDiv(index, w, h);
    assert index == ((a / h) * h + a % h) * w + index % w;
    assert ((a / h) * h + a % h) * w == w * h * (a / h) + w * (a % h);
  }

  /** Serialization is injective on in-range positions: distinct
      `(x, y, k)` give distinct indices. */
  lemma SerialIndexInjective(w: nat, h: nat, x1: nat, y1: nat, k1: nat, x2: nat, y2: nat, k2: nat)
    requires x1 < w && y1 < h && x2 < w && y2 < h
    requires SerialIndex(w, h, x1, y1, k1) == SerialIndex(w, h, x2, y2, k2)
    ensures x1 == x2 && y1 == y2 && k1 == k2
  {
    UnserializeSerialIndex(w, h, x1, y1, k1);
    UnserializeSerialIndex(w, h, x2, y2, k2);
  }

  /** The indices of cluster `k` lie in the block `[w*h*k, w*h*(k+1))`; so
      the index fits in 16 bits whenever `w*h*(k+1) <= 65536`. */
  lemma SerialIndexBounds(w: nat, h: nat, x: nat, y: nat, k: nat)
    requires x < w && y < h
    ensures w * h * k <= SerialIndex(w, h, x, y, k) < w * h * (k + 1)
  {
    var plane := w * h;
    assert w * y + x < plane by {
      assert w * y + x < w * (y + 1);
      MulMonotone(w, y + 1, h);
    }
    assert plane * (k + 1) == plane * k + plane;
  }

  /** Conversely, every index of the block `[w*h*k, w*h*(k+1))` decodes to
      cluster `k`: together with `SerialIndexBounds`, cluster `k` occupies
      exactly that block. */
  lemma BlockDecodesToCluster(w: nat, h: nat, k: nat, n: nat)
    requires w > 0 && h > 0 && w * h * k <= n < w * h * (k + 1)
    ensures Unserialize(w, h, n).2 == k
  {
    assert w * h * (k + 1) == w * h * k + w * h;
    assert w * h * k == k * (w * h);
    DivModUnique(n, w * h, k, n - w * h * k);
  }

  /** The `ArrayLayer` output determines the timestamp, row and cluster of
      its input, and nothing else of it. */
  lemma ArrayLayerSameOutput(ev1: Event, k1: nat, ev2: Event, k2: nat)
    ensures ArrayLayer.RemapEvent(ev1, k1) == ArrayLayer.RemapEvent(ev2, k2)
            <==> ev1.t == ev2.t && ev1.y == ev2.y && k1 == k2
  {
  }

  /** Worked example: `SerializingLayer(4, 3)` sends `(t=10, x=2, y=1)` in
      cluster 5 to index 66. */
  lemma SerializingExample(p: nat)
    ensures SerializingLayer(4, 3).RemapEvent(Event(10, 2, 1, p), 5) == Event(10, 66, 0, 0)
  {
  }

}
