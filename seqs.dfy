// Sequence helpers shared by the tokenizer, the accessors and the renderer.

module Seqs {

  /** A non-empty sequence is its first element followed by the rest. */
  lemma HeadTail<T>(s: seq<T>)
    requires s != []
    ensures s == [s[0]] + s[1..]
  {
  }

  lemma AppendEmpty<T>(x: seq<T>)
    ensures x + [] == x && [] + x == x
  {
  }

  /** All but the last element of a concatenation with a non-empty second
      part, and that last element. */
  lemma AppendInit<T>(a: seq<T>, b: seq<T>)
    requires b != []
    ensures (a + b)[..|a + b| - 1] == a + b[..|b| - 1]
    ensures (a + b)[|a + b| - 1] == b[|b| - 1]
  {
  }

  lemma AppendAssoc<T>(x: seq<T>, y: seq<T>, z: seq<T>)
    ensures x + (y + z) == (x + y) + z
  {
  }

  /** A suffix of a concatenation that starts inside its second part. */
  lemma AppendDrop<T>(a: seq<T>, b: seq<T>, k: int)
    requires |a| <= k <= |a| + |b|
    ensures (a + b)[k..|a + b|] == b[k - |a|..|b|]
  {
  }

  /** Equal slices stay equal without their last elements. */
  lemma SliceInitEq<T>(t: seq<T>, lo: int, hi: int, u: seq<T>, lo': int, hi': int)
    requires 0 <= lo < hi <= |t| && 0 <= lo' < hi' <= |u| && hi - lo == hi' - lo'
    requires t[lo..hi] == u[lo'..hi']
    ensures t[lo..hi - 1] == u[lo'..hi' - 1] && t[hi - 1] == u[hi' - 1]
  {
    assert t[hi - 1] == t[lo..hi][hi - 1 - lo];
    assert u[hi' - 1] == u[lo'..hi'][hi - 1 - lo];
    assert t[lo..hi - 1] == t[lo..hi][..hi - 1 - lo];
    assert u[lo'..hi' - 1] == u[lo'..hi'][..hi - 1 - lo];
  }

  /** A suffix of a slice is a slice. */
  lemma SliceDrop<T>(t: seq<T>, i: int, j: int, k: int)
    requires 0 <= k && 0 <= i && i + k <= j <= |t|
    ensures t[i..j][k..] == t[i + k..j]
  {
  }

  /** A slice of one element. */
  lemma SliceOne<T>(t: seq<T>, i: int)
    requires 0 <= i < |t|
    ensures t[i..i + 1] == [t[i]]
  {
  }

  /** A slice grown by the element after it. */
  lemma SliceExtend<T>(t: seq<T>, i: int, j: int)
    requires 0 <= i <= j < |t|
    ensures t[i..j] + [t[j]] == t[i..j + 1]
  {
  }

  /** A slice shrunk by its last element. */
  lemma SliceShrink<T>(t: seq<T>, i: int, j: int)
    requires 0 <= i < j <= |t|
    ensures t[i..j][..j - i - 1] == t[i..j - 1]
  {
  }

  /** The first two elements of a slice, then the rest of it. */
  lemma SlicePair<T>(t: seq<T>, i: int, j: int)
    requires 0 <= i && i + 2 <= j <= |t|
    ensures t[i..j] == [t[i], t[i + 1]] + t[i + 2..j]
  {
  }

  /** A slice cut around one of its elements. */
  lemma SliceAround<T>(t: seq<T>, lo: int, p: int, hi: int)
    requires 0 <= lo <= p < hi <= |t|
    ensures t[lo..hi] == t[lo..p] + [t[p]] + t[p + 1..hi]
  {
  }

  /** A prefix of `v` that extends `acc` by `x`. */
  lemma PrefixExtend<T>(v: seq<T>, acc: seq<T>, x: T)
    requires |acc| + 1 <= |v| && v[..|acc| + 1] == acc + [x]
    ensures v[..|acc|] == acc && v[|acc|..] == [x] + v[|acc| + 1..]
  {
    assert v[..|acc|] == v[..|acc| + 1][..|acc|];
  }

  /** The two halves of a concatenation. */
  lemma AppendParts<T>(a: seq<T>, b: seq<T>)
    ensures (a + b)[..|a|] == a && (a + b)[|a|..] == b
    ensures (a + b)[0..|a|] == a[0..|a|]
  {
  }

  /** Python's `sep.join(parts)` over any element type: the parts in order,
      with `sep` between each two neighbours. */
  function Join<T>(parts: seq<seq<T>>, sep: seq<T>): seq<T>
    decreases |parts|
  {
    if |parts| == 0 then []
    else if |parts| == 1 then parts[0]
    else Join(parts[..|parts| - 1], sep) + sep + parts[|parts| - 1]
  }

  /** Joining two lists of parts is joining each, with one separator between
      them when both are non-empty. */
  lemma {:induction false} JoinAppend<T>(a: seq<seq<T>>, b: seq<seq<T>>, sep: seq<T>)
    ensures Join(a + b, sep) == Join(a, sep) + (if a != [] && b != [] then sep else []) + Join(b, sep)
    decreases |b|
  {
    var ja := Join(a, sep);
    if b == [] {
      AppendEmpty(a);
      AppendEmpty(ja);
    } else if |b| == 1 {
      if a == [] {
        AppendEmpty(b);
        AppendEmpty(b[0]);
        AppendEmpty(ja);
      } else {
        AppendInit(a, b);
        AppendEmpty(a);
      }
    } else {
      var init, last := b[..|b| - 1], b[|b| - 1];
      AppendInit(a, b);
      JoinAppend(a, init, sep);
      var prefix := ja + (if a != [] then sep else []);
      var ji := Join(init, sep);
      AppendAssoc(prefix, ji + sep, last);
      AppendAssoc(prefix, ji, sep);
    }
  }

  /** Concatenation (joining with an empty separator) of a first part and
      the rest. */
  lemma ConcatCons<T>(head: seq<T>, rest: seq<seq<T>>)
    ensures Join([head] + rest, []) == head + Join(rest, [])
  {
    JoinAppend([head], rest, []);
    assert Join([head], []) == head;
    var r := Join(rest, []);
    assert head + [] + r == head + r;
  }

  /** An element that occurs in no part and not in the separator does not
      occur in the join. */
  lemma {:induction false} JoinExcludes<T>(parts: seq<seq<T>>, sep: seq<T>, x: T)
    requires forall k :: 0 <= k < |parts| ==> x !in parts[k]
    requires x !in sep
    ensures x !in Join(parts, sep)
    decreases |parts|
  {
    if |parts| > 1 {
      JoinExcludes(parts[..|parts| - 1], sep, x);
    }
  }
}
