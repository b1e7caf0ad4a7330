/** `Wheel.tags` and `Wheel.is_compatible` (setuptools/wheel.py): the compressed tag set of
    a wheel name expands to the ordered cross product of its dot-separated parts, and a wheel
    is compatible when one of those triples is among the interpreter's supported tags (which
    the program obtains from `pep425tags.get_supported()` and this model takes as a parameter). */
module Tags {
  import opened Common
  import opened WheelName

  /** A tag triple `(py_version, abi, platform)`, a tuple as in the program. */
  type Tag = (string, string, string)

  /** The triples `(x, y, z)` for `z` in `zs`, in order. */
  function Cell<A, B, C>(x: A, y: B, zs: seq<C>): (r: seq<(A, B, C)>)
    ensures |r| == |zs|
    ensures forall k :: 0 <= k < |zs| ==> r[k] == (x, y, zs[k])
  {
    seq(|zs|, k requires 0 <= k < |zs| => (x, y, zs[k]))
  }

  /** The triples with first component `x`, `ys` outer and `zs` inner. */
  function Row<A, B, C>(x: A, ys: seq<B>, zs: seq<C>): seq<(A, B, C)>
    decreases |ys|
  {
    if ys == [] then [] else Cell(x, ys[0], zs) + Row(x, ys[1..], zs)
  }

  /** `itertools.product(xs, ys, zs)`. */
  function Product<A, B, C>(xs: seq<A>, ys: seq<B>, zs: seq<C>): seq<(A, B, C)>
    decreases |xs|
  {
    if xs == [] then [] else Row(xs[0], ys, zs) + Product(xs[1..], ys, zs)
  }

  /** `i * n`, unfolded so that index arithmetic stays linear. */
  function Stride(i: nat, n: nat): nat {
    if i == 0 then 0 else n + Stride(i - 1, n)
  }

  lemma {:induction false} StrideIsProduct(i: nat, n: nat)
    ensures Stride(i, n) == i * n
  {
    if i > 0 {
      StrideIsProduct(i - 1, n);
    }
  }

  lemma {:induction false} RowAt<A, B, C>(x: A, ys: seq<B>, zs: seq<C>, j: nat, k: nat)
    requires j < |ys| && k < |zs|
    ensures |Row(x, ys, zs)| == Stride(|ys|, |zs|)
    ensures Stride(j, |zs|) + k < Stride(|ys|, |zs|)
    ensures Row(x, ys, zs)[Stride(j, |zs|) + k] == (x, ys[j], zs[k])
    decreases |ys|
  {
    var c := Cell(x, ys[0], zs);
    var rest := Row(x, ys[1..], zs);
    assert Row(x, ys, zs) == c + rest;
    RowLength(x, ys[1..], zs);
    if j == 0 {
      assert (c + rest)[k] == c[k];
    } else {
      RowAt(x, ys[1..], zs, j - 1, k);
      var q := Stride(j - 1, |zs|) + k;
      assert (c + rest)[|zs| + q] == rest[q];
      assert ys[1..][j - 1] == ys[j];
    }
  }

  lemma {:induction false} RowLength<A, B, C>(x: A, ys: seq<B>, zs: seq<C>)
    ensures |Row(x, ys, zs)| == Stride(|ys|, |zs|)
    decreases |ys|
  {
    if ys != [] {
      RowLength(x, ys[1..], zs);
    }
  }

  lemma {:induction false} ProductLength<A, B, C>(xs: seq<A>, ys: seq<B>, zs: seq<C>)
    ensures |Product(xs, ys, zs)| == Stride(|xs|, Stride(|ys|, |zs|))
    decreases |xs|
  {
    if xs != [] {
      ProductLength(xs[1..], ys, zs);
      RowLength(xs[0], ys, zs);
    }
  }

  /** The product distributes over concatenation of the first list. */
  lemma {:induction false} ProductAppend<A, B, C>(xs1: seq<A>, xs2: seq<A>, ys: seq<B>, zs: seq<C>)
    ensures Product(xs1 + xs2, ys, zs) == Product(xs1, ys, zs) + Product(xs2, ys, zs)
    decreases |xs1|
  {
    if xs1 == [] {
      assert xs1 + xs2 == xs2;
    } else {
      ProductAppend(xs1[1..], xs2, ys, zs);
      assert (xs1 + xs2)[1..] == xs1[1..] + xs2;
      assert (xs1 + xs2)[0] == xs1[0];
    }
  }

  /** The product is the rows before `xs[i]`, the row of `xs[i]`, then the rows after it. */
  lemma ProductSplitAt<A, B, C>(xs: seq<A>, ys: seq<B>, zs: seq<C>, i: nat)
    requires i < |xs|
    ensures Product(xs, ys, zs) == Product(xs[..i], ys, zs) + (Row(xs[i], ys, zs) + Product(xs[i + 1..], ys, zs))
    ensures |Product(xs[..i], ys, zs)| == Stride(i, Stride(|ys|, |zs|))
  {
    ProductAppend(xs[..i], xs[i..], ys, zs);
    assert xs[..i] + xs[i..] == xs;
    assert xs[i..][0] == xs[i] && xs[i..][1..] == xs[i + 1..];
    ProductLength(xs[..i], ys, zs);
  }

  /** The product lists `(xs[i], ys[j], zs[k])` at position `i * |ys| * |zs| + j * |zs| + k`
      (written with `Stride`, see `StrideIsProduct`): the first component varies slowest and
      the last fastest. */
  lemma ProductAt<A, B, C>(xs: seq<A>, ys: seq<B>, zs: seq<C>, i: nat, j: nat, k: nat)
    requires i < |xs| && j < |ys| && k < |zs|
    ensures Stride(i, Stride(|ys|, |zs|)) + (Stride(j, |zs|) + k) < |Product(xs, ys, zs)|
    ensures Product(xs, ys, zs)[Stride(i, Stride(|ys|, |zs|)) + (Stride(j, |zs|) + k)] == (xs[i], ys[j], zs[k])
  {
    ProductSplitAt(xs, ys, zs, i);
    RowAt(xs[i], ys, zs, j, k);
    ConcatAt(Product(xs[..i], ys, zs), Row(xs[i], ys, zs), Product(xs[i + 1..], ys, zs), Stride(j, |zs|) + k);
  }

  lemma ConcatAt<T>(a: seq<T>, b: seq<T>, c: seq<T>, m: nat)
    requires m < |b|
    ensures |a| + m < |a + (b + c)| && (a + (b + c))[|a| + m] == b[m]
  {
  }

  /** A triple is in the product exactly when each component is in its list. */
  lemma {:induction false} InProduct<A, B, C>(xs: seq<A>, ys: seq<B>, zs: seq<C>, t: (A, B, C))
    ensures t in Product(xs, ys, zs) <==> t.0 in xs && t.1 in ys && t.2 in zs
    decreases |xs|
  {
    if xs != [] {
      InProduct(xs[1..], ys, zs, t);
      InRow(xs[0], ys, zs, t);
      assert xs == [xs[0]] + xs[1..];
    }
  }

  lemma {:induction false} InRow<A, B, C>(x: A, ys: seq<B>, zs: seq<C>, t: (A, B, C))
    ensures t in Row(x, ys, zs) <==> t.0 == x && t.1 in ys && t.2 in zs
    decreases |ys|
  {
    if ys != [] {
      InRow(x, ys[1..], zs, t);
      assert ys == [ys[0]] + ys[1..];
      var c := Cell(x, ys[0], zs);
      if t in c {
        var k :| 0 <= k < |c| && c[k] == t;
        assert zs[k] in zs;
      }
      if t.0 == x && t.1 == ys[0] && t.2 in zs {
        var k :| 0 <= k < |zs| && zs[k] == t.2;
        assert c[k] == t;
      }
    }
  }

  /** `Wheel.tags()`. */
  function WheelTags(w: Wheel): seq<Tag> {
    Product(SplitOn(w.pyVersion, '.'), SplitOn(w.abi, '.'), SplitOn(w.platform, '.'))
  }

  /** `next((True for t in tags if t in supported), False)`: the scan stops at the first
      supported triple. */
  function AnySupported(tags: seq<Tag>, supported: set<Tag>): (r: bool)
    ensures r <==> exists i :: 0 <= i < |tags| && tags[i] in supported
    decreases |tags|
  {
    if tags == [] then false
    else if tags[0] in supported then true
    else
      assert forall i :: 1 <= i < |tags| ==> tags[i] == tags[1..][i - 1];
      AnySupported(tags[1..], supported)
  }

  /** `Wheel.is_compatible()` for the interpreter's supported tags `supported`. */
  function IsCompatible(w: Wheel, supported: set<Tag>): bool {
    AnySupported(WheelTags(w), supported)
  }

  /** A wheel is compatible exactly when some supported triple has each component among the
      dot-separated parts of the corresponding field of the name. */
  lemma IsCompatibleIff(w: Wheel, supported: set<Tag>)
    ensures IsCompatible(w, supported) <==>
      exists t: Tag :: t in supported && t.0 in SplitOn(w.pyVersion, '.')
        && t.1 in SplitOn(w.abi, '.') && t.2 in SplitOn(w.platform, '.')
  {
    var tags := WheelTags(w);
    if IsCompatible(w, supported) {
      var i :| 0 <= i < |tags| && tags[i] in supported;
      InProduct(SplitOn(w.pyVersion, '.'), SplitOn(w.abi, '.'), SplitOn(w.platform, '.'), tags[i]);
    } else {
      forall t | t in supported
        ensures !(t.0 in SplitOn(w.pyVersion, '.') && t.1 in SplitOn(w.abi, '.') && t.2 in SplitOn(w.platform, '.'))
      {
        InProduct(SplitOn(w.pyVersion, '.'), SplitOn(w.abi, '.'), SplitOn(w.platform, '.'), t);
      }
    }
  }
}
