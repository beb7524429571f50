/** The product record every provider adapter emits (a Python dict with fixed keys), the
    URL invariant on its links, and the shape shared by the adapters' per-item loops. */
module Catalog {
  import opened Wrappers
  import opened Text

  /** One search result. `condition` is read by the scorer; no adapter sets it. */
  datatype Product = Product(
    id: string,
    title: string,
    price: real,
    currency: string,
    platform: string,
    imageUrl: string,
    sourceLink: string,
    condition: Option<string>)

  /** `url.startswith(('http://', 'https://'))`. */
  predicate HasHttpScheme(url: string) {
    StartsWith(url, "http://") || StartsWith(url, "https://")
  }

  /** Both links of a product are absolute http(s) URLs. */
  predicate ValidLinks(p: Product) {
    HasHttpScheme(p.imageUrl) && HasHttpScheme(p.sourceLink)
  }

  /** What one iteration of an adapter's item loop does: raise out of the loop, `continue`,
      or append a product. */
  datatype Step = Abort | Skip | Emit(product: Product)

  /** A provider call: failed (non-200 status or an exception around the item loop), or the
      list of raw items in the response. */
  datatype Response<T> = Failed | Items(items: seq<T>)

  /** The products appended by the loop `for item in items` whose body is `f`. */
  function Collect<T>(items: seq<T>, f: T -> Step): (r: seq<Product>)
    ensures |r| <= |items|
    decreases |items|
  {
    if items == [] then []
    else
      var last := f(items[|items| - 1]);
      Collect(items[..|items| - 1], f) + if last.Emit? then [last.product] else []
  }

  /** Some item makes the loop raise. */
  predicate Aborts<T>(items: seq<T>, f: T -> Step) {
    exists i :: 0 <= i < |items| && f(items[i]).Abort?
  }

  /** The list an adapter returns: its `except` turns a raise anywhere in the loop into []. */
  function Outcome<T>(items: seq<T>, f: T -> Step): seq<Product> {
    if Aborts(items, f) then [] else Collect(items, f)
  }

  /** The loop's output for a concatenation is the concatenation of its outputs: products
      keep the relative order of the items they come from, and a skipped item does not
      disturb its neighbours. */
  lemma {:induction false} CollectConcat<T>(a: seq<T>, b: seq<T>, f: T -> Step)
    ensures Collect(a + b, f) == Collect(a, f) + Collect(b, f)
    decreases |b|
  {
    if b == [] {
      assert a + b == a;
    } else {
      CollectConcat(a, b[..|b| - 1], f);
      assert (a + b)[..|a + b| - 1] == a + b[..|b| - 1];
    }
  }

  /** Every emitted product is the one some item's iteration appended. */
  lemma {:induction false} CollectOrigin<T>(items: seq<T>, f: T -> Step, k: nat)
    requires k < |Collect(items, f)|
    ensures exists i :: 0 <= i < |items| && f(items[i]) == Emit(Collect(items, f)[k])
    decreases |items|
  {
    var init := items[..|items| - 1];
    if k < |Collect(init, f)| {
      CollectOrigin(init, f, k);
      var i :| 0 <= i < |init| && f(init[i]) == Emit(Collect(init, f)[k]);
      assert items[i] == init[i];
    } else {
      assert f(items[|items| - 1]) == Emit(Collect(items, f)[k]);
    }
  }

  /** A property that holds of every product any iteration emits holds of the whole output. */
  lemma CollectAll<T>(items: seq<T>, f: T -> Step, p: Product -> bool)
    requires forall i :: 0 <= i < |items| && f(items[i]).Emit? ==> p(f(items[i]).product)
    ensures forall k :: 0 <= k < |Collect(items, f)| ==> p(Collect(items, f)[k])
  {
    forall k | 0 <= k < |Collect(items, f)|
      ensures p(Collect(items, f)[k])
    {
      CollectOrigin(items, f, k);
    }
  }

  /** When no iteration skips or raises, the output has one product per item, in order. */
  lemma {:induction false} CollectEveryItem<T>(items: seq<T>, f: T -> Step)
    requires forall i :: 0 <= i < |items| ==> f(items[i]).Emit?
    ensures |Collect(items, f)| == |items|
    ensures forall i :: 0 <= i < |items| ==> Collect(items, f)[i] == f(items[i]).product
    decreases |items|
  {
    if items != [] {
      CollectEveryItem(items[..|items| - 1], f);
    }
  }

  /** A run of items raises exactly when one of its parts does. */
  lemma AbortsConcat<T>(a: seq<T>, b: seq<T>, f: T -> Step)
    ensures Aborts(a + b, f) <==> Aborts(a, f) || Aborts(b, f)
  {
    if Aborts(a + b, f) {
      var i :| 0 <= i < |a + b| && f((a + b)[i]).Abort?;
      if i >= |a| {
        assert b[i - |a|] == (a + b)[i];
      }
    }
    if Aborts(a, f) {
      var i :| 0 <= i < |a| && f(a[i]).Abort?;
      assert (a + b)[i] == a[i];
    }
    if Aborts(b, f) {
      var i :| 0 <= i < |b| && f(b[i]).Abort?;
      assert (a + b)[|a| + i] == b[i];
    }
  }

  /** A skipped item alone emits nothing and does not raise. */
  lemma CollectSkipped<T>(bad: T, f: T -> Step)
    requires f(bad).Skip?
    ensures Collect([bad], f) == [] && !Aborts([bad], f)
  {
    assert [bad][..0] == [];
  }

  /** A skipped item between two runs contributes nothing: neither a product nor a raise. */
  lemma CollectSkip<T>(a: seq<T>, bad: T, b: seq<T>, f: T -> Step)
    requires f(bad).Skip?
    ensures Collect(a + [bad] + b, f) == Collect(a, f) + Collect(b, f)
    ensures Aborts(a + [bad] + b, f) <==> Aborts(a, f) || Aborts(b, f)
  {
    CollectSkipped(bad, f);
    CollectConcat(a + [bad], b, f);
    CollectConcat(a, [bad], f);
    assert Collect(a, f) + [] == Collect(a, f);
    AbortsConcat(a + [bad], b, f);
    AbortsConcat(a, [bad], f);
  }

  /** A raise within the first items is a raise of the whole loop. */
  lemma AbortsPrefix<T>(pre: seq<T>, all: seq<T>, f: T -> Step)
    requires pre <= all && Aborts(pre, f)
    ensures Aborts(all, f)
  {
    var i :| 0 <= i < |pre| && f(pre[i]).Abort?;
    assert all[i] == pre[i];
  }
}
