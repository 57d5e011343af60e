// The diagnostic rendering of args.py (`Args.__str__` and `Args.__format__`):
// the token list on one line, a space before every token except the first
// and except separator tokens, and, for the format spec "c", the token under
// the cursor in brackets (or "[]" after the last token when the cursor is at
// the end).

module Rendering {
  import opened Seqs
  import opened Tokens

  /** What goes in front of the token at position `k` of the line. */
  function Gap(k: int, tok: string): string {
    if k > 0 && tok != Separator then " " else ""
  }

  /** Tokens `t[lo..hi]`, each preceded by the gap its position in `t` calls for. */
  function Line(t: seq<string>, lo: int, hi: int): string
    requires 0 <= lo <= hi <= |t|
    decreases hi - lo
  {
    if lo == hi then "" else Line(t, lo, hi - 1) + Gap(hi - 1, t[hi - 1]) + t[hi - 1]
  }

  /** `str(args)`. */
  function Render(t: seq<string>): string {
    Line(t, 0, |t|)
  }

  /** The first `hi` tokens as `format` lays them out: a space before each
      token but the first and the separators, and, when `cursor`, the token
      at `idx` in brackets. */
  function Marked(t: seq<string>, idx: int, cursor: bool, hi: int): string
    requires 0 <= hi <= |t|
    decreases hi
  {
    if hi == 0 then ""
    else
      var k := hi - 1;
      var prefix := Marked(t, idx, cursor, k);
      var spaced := if k > 0 && t[k] != Separator then prefix + " " else prefix;
      if cursor && k == idx then spaced + "[" + t[k] + "]" else spaced + t[k]
  }

  /** `format(args, spec)`; `cursor` is `spec == "c"`. A cursor at the end
      is shown as "[]" after the last token, whatever the spec. */
  function Formatted(t: seq<string>, idx: int, cursor: bool): string
    requires 0 <= idx <= |t|
  {
    Marked(t, idx, cursor, |t|) + (if idx == |t| then "[]" else "")
  }

  /** A stretch of the line is the stretches on either side of any cut. */
  lemma {:induction false} LineSplit(t: seq<string>, lo: int, mid: int, hi: int)
    requires 0 <= lo <= mid <= hi <= |t|
    ensures Line(t, lo, hi) == Line(t, lo, mid) + Line(t, mid, hi)
    decreases hi - mid
  {
    var left := Line(t, lo, mid);
    if mid == hi {
      AppendEmpty(left);
    } else {
      LineSplit(t, lo, mid, hi - 1);
      var gap, last := Gap(hi - 1, t[hi - 1]), t[hi - 1];
      var inner := Line(t, mid, hi - 1);
      AppendAssoc(left, inner + gap, last);
      AppendAssoc(left, inner, gap);
    }
  }

  /** A stretch depends only on its tokens and on whether it starts the line. */
  lemma {:induction false} LineFrame(t: seq<string>, lo: int, hi: int, u: seq<string>, lo': int, hi': int)
    requires 0 <= lo <= hi <= |t| && 0 <= lo' <= hi' <= |u| && hi - lo == hi' - lo'
    requires t[lo..hi] == u[lo'..hi']
    requires lo == hi || (lo == 0 <==> lo' == 0)
    ensures Line(t, lo, hi) == Line(u, lo', hi')
    decreases hi - lo
  {
    if lo < hi {
      SliceInitEq(t, lo, hi, u, lo', hi');
      LineFrame(t, lo, hi - 1, u, lo', hi' - 1);
    }
  }

  /** Rendering two token lists one after the other: a single space between
      them unless either is empty or the second starts with a separator. */
  lemma RenderAppend(x: seq<string>, y: seq<string>)
    ensures Render(x + y) == Render(x) + (if x != [] && y != [] && y[0] != Separator then " " else "") + Render(y)
  {
    var t := x + y;
    if y == [] {
      AppendEmpty(x);
      AppendEmpty(Render(x));
    } else if x == [] {
      AppendEmpty(y);
      AppendEmpty(Render(y));
    } else {
      LineSplit(t, 0, |x|, |t|);
      AppendParts(x, y);
      LineFrame(t, 0, |x|, x, 0, |x|);
      RenderAppendStep(x, y);
    }
  }

  lemma RenderAppendStep(x: seq<string>, y: seq<string>)
    requires x != [] && y != []
    ensures Line(x + y, |x|, |x + y|) == (if y[0] != Separator then " " else "") + Render(y)
  {
    var t := x + y;
    var gap, first := Gap(|x|, y[0]), y[0];
    LineSplit(t, |x|, |x| + 1, |t|);
    LineSplit(y, 0, 1, |y|);
    AppendDrop(x, y, |x| + 1);
    LineFrame(t, |x| + 1, |t|, y, 1, |y|);
    var rest := Line(y, 1, |y|);
    AppendEmpty(gap);
    AppendEmpty(first);
    AppendEmpty<char>("");
    AppendAssoc(gap, first, rest);
  }

  /** A run without separator tokens renders as Python's `" ".join` of it. */
  lemma {:induction false} RenderSpaced(run: seq<string>)
    requires Separator !in run
    ensures Render(run) == Join(run, " ")
    decreases |run|
  {
    if run != [] {
      var init := run[..|run| - 1];
      RenderSpaced(init);
      LineFrame(run, 0, |run| - 1, init, 0, |init|);
    }
  }

  /** Before the marked token, or with no mark at all, `format` lays the
      tokens out as `str` does. */
  lemma {:induction false} MarkedPlain(t: seq<string>, idx: int, cursor: bool, hi: int)
    requires 0 <= hi <= |t| && (!cursor || hi <= idx)
    ensures Marked(t, idx, cursor, hi) == Line(t, 0, hi)
    decreases hi
  {
    if hi > 0 {
      var k := hi - 1;
      MarkedPlain(t, idx, cursor, k);
      if Gap(k, t[k]) == "" {
        AppendEmpty(Line(t, 0, k));
      }
    }
  }

  /** From the marked token on, `format` lays the tokens out as `str` does,
      with that token in brackets. */
  lemma {:induction false} MarkedAfter(t: seq<string>, idx: int, hi: int)
    requires 0 <= idx < hi <= |t|
    ensures Marked(t, idx, true, hi) ==
            Line(t, 0, idx) + Gap(idx, t[idx]) + "[" + t[idx] + "]" + Line(t, idx + 1, hi)
    decreases hi
  {
    var before := Line(t, 0, idx);
    var mark := before + Gap(idx, t[idx]) + "[" + t[idx] + "]";
    var k := hi - 1;
    if hi == idx + 1 {
      MarkedPlain(t, idx, true, idx);
      AppendEmpty(mark);
      if Gap(idx, t[idx]) == "" {
        AppendEmpty(before);
      }
    } else {
      MarkedAfter(t, idx, k);
      var inner, gap := Line(t, idx + 1, k), Gap(k, t[k]);
      AppendAssoc(mark, inner + gap, t[k]);
      AppendAssoc(mark, inner, gap);
      if gap == "" {
        AppendEmpty(inner);
        AppendEmpty(mark + inner);
      }
    }
  }

  /** What `format` shows: with spec "c" and the cursor on a token, the plain
      rendering with that token in brackets and nothing else changed;
      otherwise the plain rendering, followed by "[]" when the cursor is at
      the end. */
  lemma FormatMarksCursor(t: seq<string>, idx: int, cursor: bool)
    requires 0 <= idx <= |t|
    ensures cursor && idx < |t| ==>
              var before := Line(t, 0, idx) + Gap(idx, t[idx]);
              var after := Line(t, idx + 1, |t|);
              Formatted(t, idx, cursor) == before + "[" + t[idx] + "]" + after &&
              Render(t) == before + t[idx] + after
    ensures !cursor || idx == |t| ==>
              Formatted(t, idx, cursor) == Render(t) + (if idx == |t| then "[]" else "")
  {
    if cursor && idx < |t| {
      MarkedAfter(t, idx, |t|);
      AppendEmpty(Marked(t, idx, cursor, |t|));
      LineSplit(t, 0, idx + 1, |t|);
    } else {
      MarkedPlain(t, idx, cursor, |t|);
    }
  }
}
