/** pandas' `drop_duplicates(subset=...)` with its default `keep='first'`,
    over any key, and the facts the dashboards rely on: which rows survive,
    that it can be split at file boundaries, and that deduplicating each file
    first changes nothing in the combined result. */
module Dedup {

  /** The keys occurring in `xs`. */
  ghost function Keys<T, K>(xs: seq<T>, key: T -> K): set<K> {
    set x | x in xs :: key(x)
  }

  /** Walk left to right, keep a row when its key is not in `seen`, and add
      its key to `seen`. */
  function DropDuplicatesFrom<T, K(==)>(xs: seq<T>, key: T -> K, seen: set<K>): (r: seq<T>)
    ensures |r| <= |xs|
    ensures forall y :: y in r ==> y in xs && key(y) !in seen
    ensures forall i, j :: 0 <= i < j < |r| ==> key(r[i]) != key(r[j])
    ensures Keys(r, key) == Keys(xs, key) - seen
    decreases |xs|
  {
    if xs == [] then []
    else if key(xs[0]) in seen then
      var r := DropDuplicatesFrom(xs[1..], key, seen);
      assert Keys(xs, key) - seen == Keys(xs[1..], key) - seen by {
        assert xs == [xs[0]] + xs[1..];
      }
      r
    else
      var tail := DropDuplicatesFrom(xs[1..], key, seen + {key(xs[0])});
      var r := [xs[0]] + tail;
      assert Keys(r, key) == {key(xs[0])} + Keys(tail, key);
      assert Keys(xs, key) == {key(xs[0])} + Keys(xs[1..], key) by {
        assert xs == [xs[0]] + xs[1..];
      }
      r
  }

  /** `drop_duplicates(subset=key)`: the rows whose key has not occurred
      before, in their original order. */
  function DropDuplicates<T, K(==)>(xs: seq<T>, key: T -> K): (r: seq<T>)
    ensures |r| <= |xs|
    ensures forall y :: y in r ==> y in xs
    ensures forall i, j :: 0 <= i < j < |r| ==> key(r[i]) != key(r[j])
    ensures Keys(r, key) == Keys(xs, key)
  {
    DropDuplicatesFrom(xs, key, {})
  }

  /** Independent reference definition: a row is kept exactly when no earlier
      row has its key. */
  ghost function KeepFirst<T, K>(xs: seq<T>, key: T -> K): seq<T> {
    if xs == [] then []
    else
      var init := xs[..|xs| - 1];
      var last := xs[|xs| - 1];
      KeepFirst(init, key) + (if key(last) in Keys(init, key) then [] else [last])
  }

  lemma KeysConcat<T, K>(a: seq<T>, b: seq<T>, key: T -> K)
    ensures Keys(a + b, key) == Keys(a, key) + Keys(b, key)
  {
    forall k | k in Keys(a + b, key)
      ensures k in Keys(a, key) + Keys(b, key)
    {
      var x :| x in a + b && key(x) == k;
      if x in a {
        assert k in Keys(a, key);
      } else {
        assert k in Keys(b, key);
      }
    }
  }

  /** Deduplication splits at any boundary: the second part is deduplicated
      against everything the first part contained. */
  lemma {:induction false} DropDuplicatesConcat<T, K>(a: seq<T>, b: seq<T>, key: T -> K, seen: set<K>)
    ensures DropDuplicatesFrom(a + b, key, seen) ==
            DropDuplicatesFrom(a, key, seen) + DropDuplicatesFrom(b, key, seen + Keys(a, key))
    decreases |a|
  {
    if a == [] {
      assert a + b == b;
      assert seen + Keys(a, key) == seen;
    } else {
      var k := key(a[0]);
      assert (a + b)[0] == a[0];
      assert (a + b)[1..] == a[1..] + b;
      assert Keys(a, key) == {k} + Keys(a[1..], key) by {
        assert a == [a[0]] + a[1..];
        KeysConcat([a[0]], a[1..], key);
      }
      if k in seen {
        DropDuplicatesConcat(a[1..], b, key, seen);
        assert seen + Keys(a[1..], key) == seen + Keys(a, key);
      } else {
        DropDuplicatesConcat(a[1..], b, key, seen + {k});
        assert seen + {k} + Keys(a[1..], key) == seen + Keys(a, key);
      }
    }
  }

  /** The left-to-right walk agrees with the reference definition. */
  lemma {:induction false} DropDuplicatesIsKeepFirst<T, K>(xs: seq<T>, key: T -> K)
    ensures DropDuplicates(xs, key) == KeepFirst(xs, key)
    decreases |xs|
  {
    if xs != [] {
      var init, last := xs[..|xs| - 1], xs[|xs| - 1];
      assert xs == init + [last];
      DropDuplicatesIsKeepFirst(init, key);
      DropDuplicatesConcat(init, [last], key, {});
      assert {} + Keys(init, key) == Keys(init, key);
    }
  }

  /** Deduplicating an already deduplicated sequence against `seen` is the
      same as deduplicating the original against both key sets. */
  lemma {:induction false} DropDuplicatesTwice<T, K>(xs: seq<T>, key: T -> K, inner: set<K>, outer: set<K>)
    ensures DropDuplicatesFrom(DropDuplicatesFrom(xs, key, inner), key, outer) ==
            DropDuplicatesFrom(xs, key, outer + inner)
    decreases |xs|
  {
    if xs != [] {
      var k := key(xs[0]);
      if k in inner {
        DropDuplicatesTwice(xs[1..], key, inner, outer);
      } else if k in outer {
        DropDuplicatesTwice(xs[1..], key, inner + {k}, outer);
        assert outer + (inner + {k}) == outer + inner;
      } else {
        var tail := DropDuplicatesFrom(xs[1..], key, inner + {k});
        assert DropDuplicatesFrom(xs, key, inner) == [xs[0]] + tail;
        assert ([xs[0]] + tail)[1..] == tail;
        DropDuplicatesTwice(xs[1..], key, inner + {k}, outer + {k});
        assert outer + {k} + (inner + {k}) == outer + inner + {k};
      }
    }
  }

  /** Deduplication is idempotent. */
  lemma DropDuplicatesIdempotent<T, K>(xs: seq<T>, key: T -> K)
    ensures DropDuplicates(DropDuplicates(xs, key), key) == DropDuplicates(xs, key)
  {
    var none: set<K> := {};
    DropDuplicatesTwice(xs, key, none, none);
    assert none + none == none;
  }

  /** `pd.concat(frames)`: the files' rows one after another, in file order.
      The result is empty exactly when every frame is, and no frame is longer
      than the result. */
  function Flatten<T>(fs: seq<seq<T>>): (r: seq<T>)
    ensures r == [] <==> forall i :: 0 <= i < |fs| ==> fs[i] == []
    ensures forall i :: 0 <= i < |fs| ==> |fs[i]| <= |r|
  {
    if fs == [] then [] else Flatten(fs[..|fs| - 1]) + fs[|fs| - 1]
  }

  /** Frame `i` sits in the concatenation right after the frames before it,
      and the concatenation of a prefix of the frames is a prefix of the
      whole. */
  lemma {:induction false} FlattenAt<T>(fs: seq<seq<T>>, i: nat)
    requires i < |fs|
    ensures var off := |Flatten(fs[..i])|;
            off + |fs[i]| <= |Flatten(fs)| &&
            Flatten(fs)[..off] == Flatten(fs[..i]) &&
            Flatten(fs)[off..off + |fs[i]|] == fs[i]
    decreases |fs|
  {
    var n := |fs| - 1;
    var init := fs[..n];
    assert Flatten(fs) == Flatten(init) + fs[n];
    if i < n {
      FlattenAt(init, i);
      assert init[..i] == fs[..i] && init[i] == fs[i];
    } else {
      assert fs[..i] == init;
    }
  }

  /** An element of the concatenation is an element of some frame, and
      every element of every frame is in the concatenation. */
  lemma {:induction false} FlattenMembers<T>(fs: seq<seq<T>>, x: T)
    ensures x in Flatten(fs) <==> exists i :: 0 <= i < |fs| && x in fs[i]
    decreases |fs|
  {
    if fs != [] {
      var n := |fs| - 1;
      var init := fs[..n];
      assert Flatten(fs) == Flatten(init) + fs[n];
      FlattenMembers(init, x);
      if exists i :: 0 <= i < |fs| && x in fs[i] {
        var i :| 0 <= i < |fs| && x in fs[i];
        if i < n {
          assert init[i] == fs[i];
        }
      }
      if exists i :: 0 <= i < |init| && x in init[i] {
        var i :| 0 <= i < |init| && x in init[i];
        assert fs[i] == init[i];
      }
    }
  }

  /** Each file deduplicated on its own. */
  function DropDuplicatesEach<T, K(==)>(fs: seq<seq<T>>, key: T -> K): (r: seq<seq<T>>)
    ensures |r| == |fs|
    ensures forall i :: 0 <= i < |fs| ==> r[i] == DropDuplicates(fs[i], key)
  {
    seq(|fs|, i requires 0 <= i < |fs| => DropDuplicates(fs[i], key))
  }

  lemma {:induction false} FlattenEachKeys<T, K>(fs: seq<seq<T>>, key: T -> K)
    ensures Keys(Flatten(DropDuplicatesEach(fs, key)), key) == Keys(Flatten(fs), key)
    decreases |fs|
  {
    if fs != [] {
      var n := |fs| - 1;
      var each := DropDuplicatesEach(fs, key);
      assert each[..n] == DropDuplicatesEach(fs[..n], key);
      FlattenEachKeys(fs[..n], key);
      KeysConcat(Flatten(each[..n]), each[n], key);
      KeysConcat(Flatten(fs[..n]), fs[n], key);
    }
  }

  /** Deduplicating every file before the combined deduplication removes
      nothing the combined pass would not: the first occurrence over the whole
      upload order is kept either way. */
  lemma {:induction false} PerFileDedupRedundant<T, K>(fs: seq<seq<T>>, key: T -> K)
    ensures DropDuplicates(Flatten(DropDuplicatesEach(fs, key)), key) == DropDuplicates(Flatten(fs), key)
    decreases |fs|
  {
    if fs != [] {
      var n := |fs| - 1;
      var each := DropDuplicatesEach(fs, key);
      assert each[..n] == DropDuplicatesEach(fs[..n], key);
      PerFileDedupRedundant(fs[..n], key);
      FlattenEachKeys(fs[..n], key);
      DropDuplicatesConcat(Flatten(each[..n]), each[n], key, {});
      DropDuplicatesConcat(Flatten(fs[..n]), fs[n], key, {});
      var seen := {} + Keys(Flatten(fs[..n]), key);
      DropDuplicatesTwice(fs[n], key, {}, seen);
      assert seen + {} == seen;
    }
  }
}
