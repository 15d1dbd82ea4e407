/**
  The gallery: an ordered list of saved results, newest first, and the three
  list operations the component performs on it (App.jsx:47, 67, 128).
 */
module Gallery {

  /** The values the style selector offers (App.jsx:103-107). */
  datatype Style = Cinematic | Anime | Horror | Romantic | Realistic

  /** One saved result. The id is the millisecond timestamp taken when the
      item was built; nothing makes it unique. The url is an object URL for
      the downloaded video. */
  datatype Item = Item(id: int, prompt: string, style: Style, url: string)

  /** The number of items a successful generation keeps (App.jsx:47). */
  const Capacity: nat := 20

  /** `xs.slice(0, n)`: the first `n` elements, or all of them when there are
      fewer. */
  function Take<T>(xs: seq<T>, n: nat): (r: seq<T>)
    ensures r <= xs
    ensures |r| == if |xs| < n then |xs| else n
  {
    if |xs| <= n then xs else xs[..n]
  }

  /** `[item, ...g]`: the item in front of the old gallery, which is kept
      whole (the Save to Gallery button, App.jsx:128). */
  function Push(g: seq<Item>, item: Item): (r: seq<Item>)
    ensures |r| == |g| + 1
    ensures r[0] == item && r[1..] == g
  {
    [item] + g
  }

  /** `[item, ...g].slice(0, 20)`: the gallery update of a successful
      generation (App.jsx:47). The new item comes first, the old items follow
      in their order, and the oldest ones beyond the capacity are dropped. */
  function PushBounded(g: seq<Item>, item: Item): (r: seq<Item>)
    ensures 1 <= |r| <= Capacity
    ensures r[0] == item
    ensures r[1..] <= g
    ensures |r| == if |g| < Capacity then |g| + 1 else Capacity
  {
    Take(Push(g, item), Capacity)
  }

  /** The number of items of `g` whose id is `id`. */
  function CountId(g: seq<Item>, id: int): (n: nat)
    ensures n <= |g|
  {
    if g == [] then 0
    else (if g[0].id == id then 1 else 0) + CountId(g[1..], id)
  }

  /** True when no item of `g` has id `id`. */
  predicate Avoids(g: seq<Item>, id: int) {
    forall k :: 0 <= k < |g| ==> g[k].id != id
  }

  /** `g.filter((x) => x.id !== id)` (App.jsx:67): every item with that id is
      dropped, every other item is kept, in order. */
  function Without(g: seq<Item>, id: int): (r: seq<Item>)
    ensures |r| == |g| - CountId(g, id)
    ensures forall x :: x in r <==> x in g && x.id != id
  {
    if g == [] then []
    else if g[0].id == id then Without(g[1..], id)
    else [g[0]] + Without(g[1..], id)
  }

  /** `a` is a subsequence of `b`: `a` is `b` with some elements left out,
      the rest in their order. */
  ghost predicate IsSubseq<T>(a: seq<T>, b: seq<T>)
    decreases |b|
  {
    if a == [] then true
    else if b == [] then false
    else (a[0] == b[0] && IsSubseq(a[1..], b[1..])) || IsSubseq(a, b[1..])
  }

  /** A subsequence of `g` free of `id` cannot be longer than the number of
      items of `g` whose id differs. */
  lemma {:induction false} AvoidingSubseqBound(r: seq<Item>, g: seq<Item>, id: int)
    requires IsSubseq(r, g) && Avoids(r, id)
    ensures |r| <= |g| - CountId(g, id)
    decreases |g|
  {
    if r == [] {
    } else if r[0] == g[0] && IsSubseq(r[1..], g[1..]) {
      AvoidingSubseqBound(r[1..], g[1..], id);
    } else {
      AvoidingSubseqBound(r, g[1..], id);
    }
  }

  /** Removal by id is the filter it claims to be: `Without(g, id)` is a
      subsequence of `g` that holds no item with that id, no such subsequence
      is longer, and any such subsequence as long as it is equal to it. */
  lemma {:induction false} WithoutIsLongestAvoidingSubseq(g: seq<Item>, id: int, r: seq<Item>)
    ensures IsSubseq(Without(g, id), g) && Avoids(Without(g, id), id)
    ensures IsSubseq(r, g) && Avoids(r, id) ==> |r| <= |Without(g, id)|
    ensures IsSubseq(r, g) && Avoids(r, id) && |r| == |Without(g, id)| ==> r == Without(g, id)
    decreases |g|
  {
    if IsSubseq(r, g) && Avoids(r, id) {
      AvoidingSubseqBound(r, g, id);
    }
    if g != [] {
      var w := Without(g[1..], id);
      WithoutIsLongestAvoidingSubseq(g[1..], id, w);
      if IsSubseq(r, g) && Avoids(r, id) && |r| == |Without(g, id)| && r != [] {
        if r[0] == g[0] && IsSubseq(r[1..], g[1..]) {
          WithoutIsLongestAvoidingSubseq(g[1..], id, r[1..]);
          assert r == [r[0]] + r[1..];
        } else {
          AvoidingSubseqBound(r, g[1..], id);
          WithoutIsLongestAvoidingSubseq(g[1..], id, r);
        }
      }
    }
  }

  /** Removing an id that no item carries leaves the gallery as it was, and
      only then. */
  lemma {:induction false} WithoutUnchangedIffAbsent(g: seq<Item>, id: int)
    ensures Without(g, id) == g <==> Avoids(g, id)
  {
    if Avoids(g, id) {
      if g != [] {
        WithoutUnchangedIffAbsent(g[1..], id);
        assert Without(g, id) == [g[0]] + Without(g[1..], id);
      }
    } else {
      var k :| 0 <= k < |g| && g[k].id == id;
      assert g[k] in g;
    }
  }

  /** Removing an id twice removes nothing more than removing it once. */
  lemma WithoutIdempotent(g: seq<Item>, id: int)
    ensures Without(Without(g, id), id) == Without(g, id)
  {
    var w := Without(g, id);
    assert Avoids(w, id) by {
      forall k | 0 <= k < |w| ensures w[k].id != id {
        assert w[k] in w;
      }
    }
    WithoutUnchangedIffAbsent(w, id);
  }

  /** Deleting the id of a freshly saved item restores the gallery saved
      into, when no older item shares that id. */
  lemma DeleteUndoesSave(g: seq<Item>, item: Item)
    requires Avoids(g, item.id)
    ensures Without(Push(g, item), item.id) == g
  {
    assert Push(g, item)[1..] == g;
    WithoutUnchangedIffAbsent(g, item.id);
  }

  /** Likewise for the bounded push of a successful generation, as long as
      the gallery had room for one more item. */
  lemma DeleteUndoesBoundedPush(g: seq<Item>, item: Item)
    requires Avoids(g, item.id) && |g| < Capacity
    ensures Without(PushBounded(g, item), item.id) == g
  {
    assert PushBounded(g, item) == Push(g, item);
    DeleteUndoesSave(g, item);
  }

  /** On a full gallery the bounded push keeps the size at the capacity: the
      new item comes first, the old items at indices 0 to 18 follow, and the
      old item at index 19 is no longer in the gallery unless it also occurs
      elsewhere. */
  lemma BoundedPushOnFullGallery(g: seq<Item>, item: Item)
    requires |g| == Capacity
    ensures |PushBounded(g, item)| == Capacity
    ensures PushBounded(g, item)[1..] == g[..Capacity - 1]
    ensures g[Capacity - 1] != item && g[Capacity - 1] !in g[..Capacity - 1]
            ==> g[Capacity - 1] !in PushBounded(g, item)
  {
    var r := PushBounded(g, item);
    assert r == [item] + g[..Capacity - 1];
  }

  /** The save path has no bound: saving into a full gallery yields one item
      more than the capacity. */
  lemma SaveExceedsCapacity(g: seq<Item>, item: Item)
    requires |g| == Capacity
    ensures |Push(g, item)| == Capacity + 1
  {
  }
}
