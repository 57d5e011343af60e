// What each accessor of args.py reads from a token list `t` when the cursor
// stands at `i`: the value (or the error that `Args._err` would report) and
// where the cursor is left. These are the specifications the methods of
// `Args` are proved against; the lemmas state what the source promises.

module Accessors {
  import opened Seqs
  import opened Tokens
  import opened Rendering

  datatype Option<T> = None | Some(value: T)

  /** The three fatal parse errors. */
  datatype ErrorKind = InvalidMulti | InvalidLong | InvalidMultiLong

  datatype Result<T> = Ok(value: T) | Err(kind: ErrorKind)

  /** One accessor call: what it yields and where it leaves the cursor (for an
      error, where the cursor stood when the error was reported). */
  datatype Step<T> = Step(result: Result<T>, cursor: int)

  /** What `Args.get` returns: `None`, a string, or a list of strings. */
  datatype Value = Absent | Text(text: string) | Items(items: seq<string>)

  // ---------------------------------------------------------------- single

  /** `_get`: no value at the end; otherwise one token is consumed, and it is
      the value unless it is the terminator. */
  function SingleSpec(t: seq<string>, i: int): (s: Step<Option<string>>)
    requires 0 <= i <= |t|
    ensures s.result.Ok? && i <= s.cursor <= |t|
  {
    if i == |t| then Step(Ok(None), i)
    else if t[i] == Terminator then Step(Ok(None), i + 1)
    else Step(Ok(Some(t[i])), i + 1)
  }

  /** `_get` at the end yields nothing and stays put; otherwise it moves on by
      exactly one token and yields that token (a separator included) unless
      it is the terminator. */
  lemma SingleShape(t: seq<string>, i: int)
    requires 0 <= i <= |t|
    ensures var s := SingleSpec(t, i);
            s.result.Ok? &&
            s.cursor == (if i == |t| then i else i + 1) &&
            (s.result.value.None? <==> i == |t| || t[i] == Terminator) &&
            (s.result.value.Some? ==> s.result.value.value == t[i])
  {
  }

  // ----------------------------------------------------------------- multi

  /** `_get_multi`. */
  function MultiSpec(t: seq<string>, i: int): (s: Step<seq<string>>)
    requires 0 <= i <= |t|
    ensures i <= s.cursor <= |t|
  {
    if i == |t| then Step(Ok([]), i)
    else if t[i] == Terminator then Step(Ok([]), i + 1)
    else if t[i] == Separator then Step(Err(InvalidMulti), i)
    else MultiRest(t, i + 1, [t[i]])
  }

  /** The loop of `_get_multi`, with `acc` read so far and the cursor at `i`. */
  function MultiRest(t: seq<string>, i: int, acc: seq<string>): (s: Step<seq<string>>)
    requires 0 <= i <= |t|
    ensures i <= s.cursor <= |t|
    decreases |t| - i
  {
    if i == |t| then Step(Ok(acc), i)
    else if t[i] == Terminator then Step(Ok(acc), i + 1)
    else if t[i] != Separator then Step(Ok(acc), i)
    else if i + 1 == |t| || !IsPlain(t[i + 1]) then Step(Err(InvalidMulti), i + 1)
    else MultiRest(t, i + 2, acc + [t[i + 1]])
  }

  /** `[",", w[0], ",", w[1], ...]`. */
  function Continuation(w: seq<string>): seq<string>
    decreases |w|
  {
    if w == [] then [] else [Separator, w[0]] + Continuation(w[1..])
  }

  predicate AllPlain(w: seq<string>) {
    forall k :: 0 <= k < |w| ==> IsPlain(w[k])
  }

  /** How a group continues after its first element: the separated elements
      `w`, then a terminator, or nothing more when the next token is plain or
      the tokens have run out. */
  predicate RestGroup(t: seq<string>, i: int, w: seq<string>, j: int) {
    0 <= i <= j <= |t| && AllPlain(w) &&
    (t[i..j] == Continuation(w) + [Terminator] ||
     (t[i..j] == Continuation(w) && (j == |t| || IsPlain(t[j]))))
  }

  /** A multi-valued group written out: the plain values `v` with separators
      between them, ended by a terminator, by the end of the tokens, or (for
      a non-empty group) by a plain token that is left unread. */
  predicate MultiGroup(t: seq<string>, i: int, v: seq<string>, j: int) {
    0 <= i <= j <= |t| && AllPlain(v) &&
    var body := if v == [] then [] else [v[0]] + Continuation(v[1..]);
    (t[i..j] == body + [Terminator] ||
     (t[i..j] == body && (j == |t| || (v != [] && IsPlain(t[j])))))
  }

  /** A separator and a plain token in front of a group continuation. */
  lemma RestGroupCons(t: seq<string>, i: int, x: string, w: seq<string>, j: int)
    requires 0 <= i && i + 2 <= j <= |t| && t[i] == Separator && t[i + 1] == x && IsPlain(x)
    requires RestGroup(t, i + 2, w, j)
    ensures RestGroup(t, i, [x] + w, j)
  {
    var c := Continuation(w);
    AppendParts([x], w);
    assert Continuation([x] + w) == [Separator, x] + c;
    SlicePair(t, i, j);
    AppendAssoc([Separator, x], c, [Terminator]);
    forall k | 0 <= k < |[x] + w| ensures IsPlain(([x] + w)[k]) {
      if k > 0 {
        assert ([x] + w)[k] == w[k - 1];
      }
    }
  }

  lemma {:induction false} MultiRestSound(t: seq<string>, i: int, acc: seq<string>)
    requires 0 <= i <= |t|
    ensures var s := MultiRest(t, i, acc);
            s.result.Ok? ==>
              |acc| <= |s.result.value| && s.result.value[..|acc|] == acc &&
              RestGroup(t, i, s.result.value[|acc|..], s.cursor)
    decreases |t| - i
  {
    var s := MultiRest(t, i, acc);
    if i == |t| || t[i] != Separator {
      if i < |t| && t[i] == Terminator {
        SliceOne(t, i);
        AppendEmpty([Terminator]);
      }
    } else if i + 1 < |t| && IsPlain(t[i + 1]) {
      var x := t[i + 1];
      MultiRestSound(t, i + 2, acc + [x]);
      if s.result.Ok? {
        var v, j := s.result.value, s.cursor;
        PrefixExtend(v, acc, x);
        RestGroupCons(t, i, x, v[|acc| + 1..], j);
      }
    }
  }

  /** The first separated element of a group continuation, and the rest. */
  lemma RestGroupStep(t: seq<string>, i: int, w: seq<string>, j: int)
    requires RestGroup(t, i, w, j) && w != []
    ensures i + 2 <= j && t[i] == Separator && t[i + 1] == w[0]
    ensures RestGroup(t, i + 2, w[1..], j)
  {
    var head, c := [Separator, w[0]], Continuation(w[1..]);
    assert Continuation(w) == head + c;
    var seg := t[i..j];
    if seg == Continuation(w) + [Terminator] {
      AppendAssoc(head, c, [Terminator]);
      AppendParts(head, c + [Terminator]);
    } else {
      AppendParts(head, c);
    }
    assert seg[0] == t[i] && seg[1] == t[i + 1];
    SliceDrop(t, i, j, 2);
    forall k | 0 <= k < |w[1..]| ensures IsPlain(w[1..][k]) {
      assert w[1..][k] == w[k + 1];
    }
  }

  lemma {:induction false} MultiRestComplete(t: seq<string>, i: int, acc: seq<string>, w: seq<string>, j: int)
    requires RestGroup(t, i, w, j)
    ensures MultiRest(t, i, acc) == Step(Ok(acc + w), j)
    decreases |w|
  {
    AppendEmpty(acc);
    if w == [] {
      AppendEmpty([Terminator]);
      if t[i..j] == [Terminator] {
        assert t[i] == t[i..j][0];
      }
    } else {
      RestGroupStep(t, i, w, j);
      MultiRestComplete(t, i + 2, acc + [w[0]], w[1..], j);
      HeadTail(w);
      AppendAssoc(acc, [w[0]], w[1..]);
    }
  }

  /** `_get_multi` reads exactly the groups written as `MultiGroup` describes,
      and reads each the way it is written: the result is `v` with the cursor
      at `j` if and only if the tokens from `i` to `j` are the group `v`. */
  lemma MultiGrammar(t: seq<string>, i: int, v: seq<string>, j: int)
    requires 0 <= i <= |t|
    ensures MultiSpec(t, i) == Step(Ok(v), j) <==> MultiGroup(t, i, v, j)
  {
    if i < |t| && IsPlain(t[i]) {
      MultiRestSound(t, i + 1, [t[i]]);
      var s := MultiRest(t, i + 1, [t[i]]);
      if s == Step(Ok(v), j) {
        assert v == [v[0]] + v[1..];
        assert t[i..j] == [t[i]] + t[i + 1..j];
      }
      if MultiGroup(t, i, v, j) {
        if v != [] {
          assert t[i] == t[i..j][0];
          assert t[i + 1..j] == t[i..j][1..];
          MultiRestComplete(t, i + 1, [t[i]], v[1..], j);
          assert [v[0]] + v[1..] == v;
        }
      }
    } else if MultiGroup(t, i, v, j) && i < |t| && j > i {
      assert t[i] == t[i..j][0];
    }
  }

  /** The loop of `_get_multi` reports an error only just after a separator
      that is followed by the end, a separator or a terminator. */
  lemma {:induction false} MultiRestError(t: seq<string>, i: int, acc: seq<string>)
    requires 0 <= i <= |t|
    ensures var s := MultiRest(t, i, acc);
            s.result.Err? ==>
              s.result.kind == InvalidMulti && i < s.cursor && t[s.cursor - 1] == Separator &&
              (s.cursor == |t| || !IsPlain(t[s.cursor]))
    decreases |t| - i
  {
    if i < |t| && t[i] == Separator && i + 1 < |t| && IsPlain(t[i + 1]) {
      MultiRestError(t, i + 2, acc + [t[i + 1]]);
    }
  }

  /** `_get_multi` reports an error for a group that starts with a
      separator, without moving, and otherwise only just after a separator
      followed by the end, a separator or a terminator. */
  lemma MultiError(t: seq<string>, i: int)
    requires 0 <= i <= |t|
    ensures i < |t| && t[i] == Separator ==> MultiSpec(t, i) == Step(Err(InvalidMulti), i)
    ensures var s := MultiSpec(t, i);
            s.result.Err? ==>
              s.result.kind == InvalidMulti &&
              ((s.cursor == i && t[i] == Separator) ||
               (i < s.cursor && t[s.cursor - 1] == Separator && (s.cursor == |t| || !IsPlain(t[s.cursor]))))
  {
    if i < |t| && IsPlain(t[i]) {
      MultiRestError(t, i + 1, [t[i]]);
    }
  }

  // ------------------------------------------------------------------ long

  /** The first delimiter token at or after `i`, or `|t|` if there is none. */
  function NextDelimiter(t: seq<string>, i: int): (k: int)
    requires 0 <= i <= |t|
    ensures i <= k <= |t|
    ensures k < |t| ==> !IsPlain(t[k])
    decreases |t| - i
  {
    if i == |t| || !IsPlain(t[i]) then i else NextDelimiter(t, i + 1)
  }

  /** Every token before the next delimiter is plain. */
  lemma {:induction false} NextDelimiterRun(t: seq<string>, i: int)
    requires 0 <= i <= |t|
    ensures forall m :: i <= m < NextDelimiter(t, i) ==> IsPlain(t[m])
    decreases |t| - i
  {
    if i < |t| && IsPlain(t[i]) {
      NextDelimiterRun(t, i + 1);
    }
  }

  /** Python's `" ".join(run)`, or `None` for an empty run. */
  function Joined(run: seq<string>): Option<string> {
    if run == [] then None else Some(Join(run, " "))
  }

  /** `_get_long`: its loop, from the cursor, with nothing read yet. */
  function LongSpec(t: seq<string>, i: int): (s: Step<Option<string>>)
    requires 0 <= i <= |t|
    ensures i <= s.cursor <= |t|
  {
    LongRest(t, i, i)
  }

  /** The loop of `_get_long`, with the tokens `t[i..j]` read so far and the
      cursor at `j`: the end of the tokens or a terminator (which is consumed)
      ends the value; a separator with nothing read is an error, and
      otherwise makes the cursor step back onto the last token read, which is
      dropped from the value; any other token is read. */
  function LongRest(t: seq<string>, i: int, j: int): (s: Step<Option<string>>)
    requires 0 <= i <= j <= |t|
    ensures i <= s.cursor <= |t|
    decreases |t| - j
  {
    if j == |t| then Step(Ok(Joined(t[i..j])), j)
    else if t[j] == Separator then
      if j == i then Step(Err(InvalidLong), j) else Step(Ok(Joined(t[i..j - 1])), j - 1)
    else if t[j] == Terminator then Step(Ok(Joined(t[i..j])), j + 1)
    else LongRest(t, i, j + 1)
  }

  /** `_get_long` stated without its loop: the plain tokens up to the next
      delimiter, joined with spaces; a terminator there is consumed; a
      separator there with nothing read is an error, and otherwise makes the
      cursor step back onto the last token read, which is dropped from the
      value. */
  function LongRun(t: seq<string>, i: int): Step<Option<string>>
    requires 0 <= i <= |t|
  {
    var k := NextDelimiter(t, i);
    if k == |t| then Step(Ok(Joined(t[i..k])), k)
    else if t[k] == Terminator then Step(Ok(Joined(t[i..k])), k + 1)
    else if k == i then Step(Err(InvalidLong), i)
    else Step(Ok(Joined(t[i..k - 1])), k - 1)
  }

  lemma {:induction false} LongRestRun(t: seq<string>, i: int, j: int)
    requires 0 <= i <= j <= |t| && NextDelimiter(t, j) == NextDelimiter(t, i)
    ensures LongRest(t, i, j) == LongRun(t, i)
    decreases |t| - j
  {
    if j < |t| && IsPlain(t[j]) {
      LongRestRun(t, i, j + 1);
    } else {
      // The two delimiter tokens differ.
      assert Terminator[0] != Separator[0];
    }
  }

  /** The loop-following specification of `_get_long` and the loop-free one
      agree on every input. */
  lemma LongCharacterized(t: seq<string>, i: int)
    requires 0 <= i <= |t|
    ensures LongSpec(t, i) == LongRun(t, i)
  {
    LongRestRun(t, i, i);
  }

  // ------------------------------------------------------------ multi-long

  /** A separator followed by the end, a separator or a terminator. */
  predicate Dangling(t: seq<string>, p: int)
    requires 0 <= p < |t|
  {
    t[p] == Separator && (p + 1 == |t| || !IsPlain(t[p + 1]))
  }

  /** The first dangling separator at or after `i`, or `|t|` if there is none. */
  function FirstDangling(t: seq<string>, i: int): (p: int)
    requires 0 <= i <= |t|
    ensures i <= p <= |t|
    ensures p < |t| ==> Dangling(t, p)
    ensures forall q :: i <= q < p ==> !Dangling(t, q)
    decreases |t| - i
  {
    if i == |t| || Dangling(t, i) then i else FirstDangling(t, i + 1)
  }

  /** The position of the last separator token of `s`, or -1. */
  function LastSeparator(s: seq<string>): (p: int)
    ensures -1 <= p < |s|
    ensures 0 <= p ==> s[p] == Separator
    ensures forall q :: p < q < |s| ==> s[q] != Separator
    decreases |s|
  {
    if s == [] then -1
    else if s[|s| - 1] == Separator then |s| - 1
    else LastSeparator(s[..|s| - 1])
  }

  /** `s` cut at every separator token: the runs between them, in order. */
  function Runs(s: seq<string>): (r: seq<seq<string>>)
    ensures |r| >= 1
    decreases |s|
  {
    var p := LastSeparator(s);
    if p < 0 then [s] else Runs(s[..p]) + [s[p + 1..]]
  }

  /** Each run joined with spaces. */
  function JoinEach(runs: seq<seq<string>>): seq<string> {
    seq(|runs|, k requires 0 <= k < |runs| => Join(runs[k], " "))
  }

  /** The first separator token at or after `i`, or `|t|` if there is none. */
  function NextSeparator(t: seq<string>, i: int): (k: int)
    requires 0 <= i <= |t|
    ensures i <= k <= |t|
    ensures k < |t| ==> t[k] == Separator
    decreases |t| - i
  {
    if i == |t| || t[i] == Separator then i else NextSeparator(t, i + 1)
  }

  /** No separator comes before the next one. */
  lemma {:induction false} NextSeparatorRun(t: seq<string>, i: int)
    requires 0 <= i <= |t|
    ensures forall m :: i <= m < NextSeparator(t, i) ==> t[m] != Separator
    decreases |t| - i
  {
    if i < |t| && t[i] != Separator {
      NextSeparatorRun(t, i + 1);
    }
  }

  /** `_get_multi_long`: a terminator at the start ends an empty group;
      otherwise the tokens up to the next separator are the first value, and
      the loop `MultiLongRest` reads the rest. */
  function MultiLongSpec(t: seq<string>, i: int): (s: Step<seq<string>>)
    requires 0 <= i <= |t|
    ensures i <= s.cursor <= |t|
  {
    if i == |t| then Step(Ok([]), i)
    else if t[i] == Terminator then Step(Ok([]), i + 1)
    else
      var k := NextSeparator(t, i);
      MultiLongRest(t, k, [Join(t[i..k], " ")])
  }

  /** The outer loop of `_get_multi_long`, with the values `acc` read so far
      and the cursor at `j`: a terminator is consumed and ends the group, a
      plain token ends it unread, and a separator must be followed by a plain
      token, which starts the next value. */
  function MultiLongRest(t: seq<string>, j: int, acc: seq<string>): (s: Step<seq<string>>)
    requires 0 <= j <= |t|
    ensures j <= s.cursor <= |t|
    decreases |t| - j
  {
    if j == |t| then Step(Ok(acc), j)
    else if t[j] == Terminator then Step(Ok(acc), j + 1)
    else if t[j] != Separator then Step(Ok(acc), j)
    else if j + 1 == |t| || !IsPlain(t[j + 1]) then Step(Err(InvalidMultiLong), j + 1)
    else
      var k := NextSeparator(t, j + 1);
      MultiLongRest(t, k, acc + [Join(t[j + 1..k], " ")])
  }

  /** `_get_multi_long` stated without its loops: every separator must be
      followed by a plain token; the tokens to the end are then cut at the
      separators and each run is joined with spaces (a terminator does not
      end a run). */
  function MultiLongGroups(t: seq<string>, i: int): Step<seq<string>>
    requires 0 <= i <= |t|
  {
    if i == |t| then Step(Ok([]), i)
    else if t[i] == Terminator then Step(Ok([]), i + 1)
    else
      var p := FirstDangling(t, i);
      if p < |t| then Step(Err(InvalidMultiLong), p + 1)
      else Step(Ok(JoinEach(Runs(t[i..]))), |t|)
  }

  lemma RunsOne(run: seq<string>)
    requires Separator !in run
    ensures Runs(run) == [run]
  {
  }

  /** Appending a separator and a run adds that run, and nothing else. */
  lemma RunsAppend(x: seq<string>, run: seq<string>)
    requires Separator !in run
    ensures Runs(x + [Separator] + run) == Runs(x) + [run]
  {
    var s := x + [Separator] + run;
    var p := LastSeparator(s);
    assert s[|x|] == Separator;
    assert p == |x|;
    assert s[..p] == x && s[p + 1..] == run;
  }

  /** The first run of a multi-long group: the tokens up to the first
      separator or the end. */
  lemma FirstRun(t: seq<string>, start: int, j: int)
    requires 0 <= start <= j <= |t|
    requires forall m :: start <= m < j ==> t[m] != Separator
    ensures JoinEach(Runs(t[start..j])) == [Join(t[start..j], " ")]
    ensures forall q :: start <= q < j ==> !Dangling(t, q)
  {
    RunsOne(t[start..j]);
  }

  /** A later run of a multi-long group: the separator at `sep`, then the
      tokens up to the next separator or the end. */
  lemma NextRun(t: seq<string>, start: int, sep: int, j: int)
    requires 0 <= start <= sep < j <= |t| && t[sep] == Separator
    requires forall m :: sep < m < j ==> t[m] != Separator
    ensures JoinEach(Runs(t[start..j])) == JoinEach(Runs(t[start..sep])) + [Join(t[sep + 1..j], " ")]
  {
    SliceAround(t, start, sep, j);
    RunsAppend(t[start..sep], t[sep + 1..j]);
  }

  /** A separator followed by a plain token, then a run, is not dangling. */
  lemma NoDanglingThrough(t: seq<string>, start: int, sep: int, j: int)
    requires 0 <= start <= sep && sep + 1 < j <= |t| && t[sep] == Separator && IsPlain(t[sep + 1])
    requires forall q :: start <= q < sep ==> !Dangling(t, q)
    requires forall m :: sep < m < j ==> t[m] != Separator
    ensures forall q :: start <= q < j ==> !Dangling(t, q)
  {
  }

  /** The loop of `_get_multi_long` from a cursor at the end or at a
      separator, with the runs from `start` read without a dangling
      separator, agrees with the loop-free statement. */
  lemma {:induction false} MultiLongRestGroups(t: seq<string>, start: int, j: int, acc: seq<string>)
    requires 0 <= start < |t| && t[start] != Terminator && start <= j <= |t|
    requires j == |t| || t[j] == Separator
    requires acc == JoinEach(Runs(t[start..j]))
    requires forall q :: start <= q < j ==> !Dangling(t, q)
    ensures MultiLongRest(t, j, acc) == MultiLongGroups(t, start)
    decreases |t| - j
  {
    if j == |t| {
      assert t[start..j] == t[start..];
    } else {
      // The two delimiter tokens differ.
      assert Terminator[0] != Separator[0];
      if Dangling(t, j) {
        assert FirstDangling(t, start) == j;
      } else {
        var k := NextSeparator(t, j + 1);
        NextSeparatorRun(t, j + 1);
        NextRun(t, start, j, k);
        NoDanglingThrough(t, start, j, k);
        MultiLongRestGroups(t, start, k, acc + [Join(t[j + 1..k], " ")]);
      }
    }
  }

  /** The loop-following specification of `_get_multi_long` and the
      loop-free one agree on every input. */
  lemma MultiLongCharacterized(t: seq<string>, i: int)
    requires 0 <= i <= |t|
    ensures MultiLongSpec(t, i) == MultiLongGroups(t, i)
  {
    if i < |t| && t[i] != Terminator {
      var k := NextSeparator(t, i);
      NextSeparatorRun(t, i);
      FirstRun(t, i, k);
      MultiLongRestGroups(t, i, k, [Join(t[i..k], " ")]);
    }
  }

  /** Round trip: the runs, put back together with separators, give the
      tokens; no run holds a separator. */
  lemma {:induction false} RunsRoundTrip(s: seq<string>)
    ensures Join(Runs(s), [Separator]) == s
    ensures forall k :: 0 <= k < |Runs(s)| ==> Separator !in Runs(s)[k]
    decreases |s|
  {
    var p := LastSeparator(s);
    if p >= 0 {
      var x, run := s[..p], s[p + 1..];
      RunsRoundTrip(x);
      JoinAppend(Runs(x), [run], [Separator]);
      assert s == x + [Separator] + run;
      forall k | 0 <= k < |Runs(s)| ensures Separator !in Runs(s)[k] {
        if k == |Runs(s)| - 1 {
          assert Runs(s)[k] == run;
        } else {
          assert Runs(s)[k] == Runs(x)[k];
        }
      }
    }
  }

  /** The first run is the tokens before the first separator. */
  lemma {:induction false} RunsFirst(s: seq<string>)
    ensures var r0 := Runs(s)[0];
            |r0| <= |s| && r0 == s[..|r0|] && (|r0| == |s| || s[|r0|] == Separator)
    decreases |s|
  {
    var p := LastSeparator(s);
    if p >= 0 {
      RunsFirst(s[..p]);
      assert Runs(s)[0] == Runs(s[..p])[0];
    }
  }

  /** When every separator is followed by a non-separator token, every run
      after the first is non-empty. */
  lemma {:induction false} RunsLaterNonEmpty(s: seq<string>)
    requires SeparatorsFollowed(s)
    ensures forall k :: 1 <= k < |Runs(s)| ==> Runs(s)[k] != []
    decreases |s|
  {
    var p := LastSeparator(s);
    if p >= 0 {
      var x := s[..p];
      SeparatorsFollowedBefore(s, p);
      RunsLaterNonEmpty(x);
      forall k | 1 <= k < |Runs(s)| ensures Runs(s)[k] != [] {
        if k < |Runs(x)| { assert Runs(s)[k] == Runs(x)[k]; }
      }
    }
  }

  /** The condition under which a separator never ends a token list or
      stands next to another separator. */
  predicate SeparatorsFollowed(s: seq<string>) {
    forall q :: 0 <= q < |s| && s[q] == Separator ==> q + 1 < |s| && s[q + 1] != Separator
  }

  lemma SeparatorsFollowedBefore(s: seq<string>, p: int)
    requires SeparatorsFollowed(s) && 0 <= p < |s| && s[p] == Separator
    ensures SeparatorsFollowed(s[..p])
  {
    var x := s[..p];
    forall q | 0 <= q < |x| && x[q] == Separator ensures q + 1 < |x| && x[q + 1] != Separator {
      assert s[q] == Separator && s[q + 1] != Separator;
    }
  }

  /** Every separator is followed by a plain token: a group without a
      dangling separator. */
  predicate SeparatorsPlainFollowed(s: seq<string>) {
    forall q :: 0 <= q < |s| && s[q] == Separator ==> q + 1 < |s| && IsPlain(s[q + 1])
  }

  /** When every separator is followed by a plain token, every run after the
      first starts with a plain token. */
  lemma {:induction false} RunsHeadsPlain(s: seq<string>)
    requires SeparatorsPlainFollowed(s)
    ensures forall k :: 1 <= k < |Runs(s)| ==> Runs(s)[k] != [] && IsPlain(Runs(s)[k][0])
    decreases |s|
  {
    var p := LastSeparator(s);
    if p >= 0 {
      var x := s[..p];
      forall q | 0 <= q < |x| && x[q] == Separator ensures q + 1 < |x| && IsPlain(x[q + 1]) {
        assert s[q] == Separator && IsPlain(s[q + 1]);
      }
      RunsHeadsPlain(x);
      forall k | 1 <= k < |Runs(s)| ensures Runs(s)[k] != [] && IsPlain(Runs(s)[k][0]) {
        if k < |Runs(x)| {
          assert Runs(s)[k] == Runs(x)[k];
        } else {
          assert Runs(s)[k] == s[p + 1..] && s[p + 1..][0] == s[p + 1];
        }
      }
    }
  }

  /** Joining the runs' values with ", " gives back the tokens as `str(args)`
      shows them, when every separator is followed by a non-separator token. */
  lemma {:induction false} RunsRender(s: seq<string>)
    requires SeparatorsFollowed(s)
    ensures Join(JoinEach(Runs(s)), ", ") == Render(s)
    decreases |s|
  {
    var p := LastSeparator(s);
    if p < 0 {
      assert Separator !in s;
      RenderSpaced(s);
      assert JoinEach([s]) == [Join(s, " ")];
    } else {
      var x, run := s[..p], s[p + 1..];
      SeparatorsFollowedBefore(s, p);
      RunsRender(x);
      assert s == x + [Separator] + run;
      RunsRenderStep(x, run);
    }
  }

  lemma RunsRenderStep(x: seq<string>, run: seq<string>)
    requires Separator !in run && run != []
    requires Join(JoinEach(Runs(x)), ", ") == Render(x)
    ensures Join(JoinEach(Runs(x + [Separator] + run)), ", ") == Render(x + [Separator] + run)
  {
    RenderSpaced(run);
    JoinRunsStep(x, run);
    RenderSeparatorStep(x, run);
  }

  lemma JoinRunsStep(x: seq<string>, run: seq<string>)
    requires Separator !in run
    ensures Join(JoinEach(Runs(x + [Separator] + run)), ", ") == Join(JoinEach(Runs(x)), ", ") + ", " + Join(run, " ")
  {
    RunsAppend(x, run);
    var values := JoinEach(Runs(x));
    assert JoinEach(Runs(x) + [run]) == values + [Join(run, " ")];
    JoinAppend(values, [Join(run, " ")], ", ");
  }

  lemma RenderSeparatorStep(x: seq<string>, run: seq<string>)
    requires run != [] && run[0] != Separator
    ensures Render(x + [Separator] + run) == Render(x) + ", " + Render(run)
  {
    RenderAppend(x, [Separator] + run);
    RenderAppend([Separator], run);
    assert x + [Separator] + run == x + ([Separator] + run);
    assert Line([Separator], 0, 0) == "" && Gap(0, Separator) == "";
    assert Render([Separator]) == Separator;
  }

  /** Every run of well-formed tokens is made of well-formed tokens. */
  lemma {:induction false} RunsWellFormed(s: seq<string>)
    requires AllWellFormed(s)
    ensures forall k :: 0 <= k < |Runs(s)| ==> AllWellFormed(Runs(s)[k])
    decreases |s|
  {
    var p := LastSeparator(s);
    if p >= 0 {
      RunsWellFormed(s[..p]);
      forall k | 0 <= k < |Runs(s)| ensures AllWellFormed(Runs(s)[k]) {
        if k < |Runs(s[..p])| {
          assert Runs(s)[k] == Runs(s[..p])[k];
        } else {
          assert Runs(s)[k] == s[p + 1..];
        }
      }
    }
  }

  /** A well-formed token other than the separator holds no ',' character. */
  lemma NoCommaInRun(run: seq<string>)
    requires AllWellFormed(run) && Separator !in run
    ensures ',' !in Join(run, " ")
  {
    forall k | 0 <= k < |run| ensures ',' !in run[k] {
      assert run[k] != Separator && WellFormed(run[k]);
    }
    JoinExcludes(run, " ", ',');
  }

  /** Past a start without a dangling separator, the tokens are well formed
      and every separator is followed by a plain token. */
  lemma GroupFollowed(t: seq<string>, i: int)
    requires 0 <= i < |t| && AllWellFormed(t) && FirstDangling(t, i) == |t|
    ensures SeparatorsPlainFollowed(t[i..]) && SeparatorsFollowed(t[i..]) && AllWellFormed(t[i..])
  {
    var s := t[i..];
    forall q | 0 <= q < |s| && s[q] == Separator ensures q + 1 < |s| && IsPlain(s[q + 1]) {
      assert !Dangling(t, i + q);
    }
    forall q | 0 <= q < |s| ensures WellFormed(s[q]) {
      assert s[q] == t[i + q];
    }
  }

  /** No value of a group holds a ','. */
  lemma ValuesNoComma(s: seq<string>)
    requires AllWellFormed(s)
    ensures var v := JoinEach(Runs(s)); forall k :: 0 <= k < |v| ==> ',' !in v[k]
  {
    var runs := Runs(s);
    RunsRoundTrip(s);
    RunsWellFormed(s);
    forall k | 0 <= k < |runs| ensures ',' !in Join(runs[k], " ") {
      NoCommaInRun(runs[k]);
    }
  }

  /** A value built from a non-empty run of well-formed tokens is non-empty. */
  lemma RunValueNonEmpty(run: seq<string>)
    requires run != [] && AllWellFormed(run)
    ensures Join(run, " ") != ""
  {
    assert WellFormed(run[|run| - 1]);
    assert |Join(run, " ")| >= |run[|run| - 1]|;
  }

  /** Every value of a group after the first is non-empty, and the first is
      empty exactly when the group starts with a separator. */
  lemma ValuesNonEmpty(s: seq<string>)
    requires s != [] && AllWellFormed(s) && SeparatorsFollowed(s)
    ensures var v := JoinEach(Runs(s));
            (forall k :: 1 <= k < |v| ==> v[k] != "") && (v[0] == "" <==> s[0] == Separator)
  {
    var runs := Runs(s);
    RunsWellFormed(s);
    RunsLaterNonEmpty(s);
    RunsFirst(s);
    forall k | 1 <= k < |runs| ensures Join(runs[k], " ") != "" {
      RunValueNonEmpty(runs[k]);
    }
    var r0 := runs[0];
    if r0 == [] {
      assert s[0] == Separator;
    } else {
      assert s[0] == r0[0] && r0[0] != Separator;
      RunValueNonEmpty(r0);
    }
  }

  /** A value whose run starts with a plain token is not the terminator:
      it starts with a character that is no delimiter. */
  lemma RunValueNotTerminator(run: seq<string>)
    requires run != [] && IsPlain(run[0]) && WellFormed(run[0])
    ensures Join(run, " ") != Terminator
  {
    assert run == [run[0]] + run[1..];
    JoinAppend([run[0]], run[1..], " ");
    assert Join([run[0]], " ") == run[0];
    var v := Join(run, " ");
    assert v[0] == run[0][0] && !IsDelimiter(run[0][0]);
  }

  /** No value of a group that does not start with the terminator is the
      terminator. */
  lemma ValuesNotTerminator(s: seq<string>)
    requires s != [] && s[0] != Terminator && AllWellFormed(s) && SeparatorsPlainFollowed(s)
    ensures var v := JoinEach(Runs(s)); forall k :: 0 <= k < |v| ==> v[k] != Terminator
  {
    var runs := Runs(s);
    RunsWellFormed(s);
    RunsHeadsPlain(s);
    FirstValueNotTerminator(s);
    forall k | 1 <= k < |runs| ensures Join(runs[k], " ") != Terminator {
      assert AllWellFormed(runs[k]);
      RunValueNotTerminator(runs[k]);
    }
  }

  /** The first value of a group that does not start with the terminator is
      not the terminator. */
  lemma FirstValueNotTerminator(s: seq<string>)
    requires s != [] && s[0] != Terminator && AllWellFormed(s)
    ensures Join(Runs(s)[0], " ") != Terminator
  {
    var r0 := Runs(s)[0];
    RunsFirst(s);
    RunsRoundTrip(s);
    if r0 != [] {
      assert r0[0] == s[0] && Separator !in r0;
      assert WellFormed(s[0]);
      RunValueNotTerminator(r0);
    }
  }

  /** What a successful `_get_multi_long` returns: it reads to the end of the
      tokens; no value holds a ',' or is the terminator; every value after the
      first is non-empty; the first is empty exactly when the group starts
      with a separator; and the values joined with ", " are the tokens as
      `str(args)` shows them. */
  lemma MultiLongShape(t: seq<string>, i: int)
    requires 0 <= i <= |t| && AllWellFormed(t)
    ensures var s := MultiLongSpec(t, i);
            s.result.Ok? && s.result.value != [] ==>
              var v := s.result.value;
              s.cursor == |t| &&
              (forall k :: 0 <= k < |v| ==> ',' !in v[k] && v[k] != Terminator) &&
              (forall k :: 1 <= k < |v| ==> v[k] != "") &&
              (v[0] == "" <==> t[i] == Separator) &&
              Join(v, ", ") == Render(t[i..])
  {
    MultiLongCharacterized(t, i);
    var st := MultiLongSpec(t, i);
    if st.result.Ok? && st.result.value != [] {
      var s := t[i..];
      assert i < |t| && FirstDangling(t, i) == |t| && st.result.value == JoinEach(Runs(s));
      GroupFollowed(t, i);
      ValuesNoComma(s);
      ValuesNotTerminator(s);
      ValuesNonEmpty(s);
      RunsRender(s);
    }
  }

  /** For a group that does not start with a terminator (which would be
      consumed and end it), `_get_multi_long` fails exactly when a separator
      at or after the start is followed by the end, a separator or a
      terminator; the error is reported at the first such separator. */
  lemma MultiLongError(t: seq<string>, i: int)
    requires 0 <= i <= |t| && (i < |t| ==> t[i] != Terminator)
    ensures MultiLongSpec(t, i).result.Err? <==> exists p :: i <= p < |t| && Dangling(t, p)
    ensures MultiLongSpec(t, i).result.Err? ==>
              MultiLongSpec(t, i).result.kind == InvalidMultiLong &&
              var p := MultiLongSpec(t, i).cursor - 1;
              i <= p && Dangling(t, p) && forall q :: i <= q < p ==> !Dangling(t, q)
  {
    MultiLongCharacterized(t, i);
    if i == |t| {
      return;
    }
    var p := FirstDangling(t, i);
    if p < |t| {
      assert i <= p < |t| && Dangling(t, p);
    }
  }

  /** A string that never has a ',' or '.' after joining: the tokens of a
      long value are plain, so with well-formed tokens none holds a
      delimiter character. */
  lemma LongValueShape(t: seq<string>, i: int)
    requires 0 <= i <= |t| && AllWellFormed(t)
    ensures var s := LongSpec(t, i);
            s.result.Ok? && s.result.value.Some? ==>
              s.result.value.value != "" && DelimiterFree(s.result.value.value)
  {
    LongCharacterized(t, i);
    NextDelimiterRun(t, i);
    var s := LongSpec(t, i);
    if s.result.Ok? && s.result.value.Some? {
      var k := NextDelimiter(t, i);
      var run := if k < |t| && t[k] == Separator then t[i..k - 1] else t[i..k];
      assert s.result.value == Joined(run) && run != [];
      forall m | 0 <= m < |run| ensures ',' !in run[m] && '.' !in run[m] {
        assert run[m] == t[i + m] && IsPlain(t[i + m]) && WellFormed(t[i + m]);
      }
      JoinExcludes(run, " ", ',');
      JoinExcludes(run, " ", '.');
      var v := Join(run, " ");
      assert WellFormed(t[i + |run| - 1]) && run[|run| - 1] == t[i + |run| - 1];
      assert |v| >= |run[|run| - 1]|;
      forall c | 0 <= c < |v| ensures !IsDelimiter(v[c]) {
        assert v[c] in v;
      }
    }
  }

  /** The values of the multi-long loop start with those already read. */
  lemma {:induction false} MultiLongRestPrefix(t: seq<string>, j: int, acc: seq<string>)
    requires 0 <= j <= |t|
    ensures var s := MultiLongRest(t, j, acc);
            s.result.Ok? ==> |acc| <= |s.result.value| && s.result.value[..|acc|] == acc
    decreases |t| - j
  {
    if j < |t| && t[j] == Separator && j + 1 < |t| && IsPlain(t[j + 1]) {
      var k := NextSeparator(t, j + 1);
      var acc' := acc + [Join(t[j + 1..k], " ")];
      MultiLongRestPrefix(t, k, acc');
      var s := MultiLongRest(t, k, acc');
      if s.result.Ok? {
        PrefixExtend(s.result.value, acc, Join(t[j + 1..k], " "));
      }
    }
  }

  /** The run `t[i..k]` is the value read before its last token, then that
      token. */
  lemma LongRewindValue(t: seq<string>, i: int, k: int)
    requires 0 <= i < k <= |t|
    ensures Join(t[i..k], " ") == (match Joined(t[i..k - 1]) case None => "" case Some(v) => v + " ") + t[k - 1]
  {
    var c := k - 1;
    SliceAround(t, i, c, k);
    AppendEmpty(t[i..c] + [t[c]]);
    if c > i {
      JoinAppend(t[i..c], [t[c]], " ");
    } else {
      assert t[i..k] == [t[c]];
      AppendEmpty(t[c]);
    }
  }

  /** `_get_long` stopped by a separator after reading some tokens: the
      cursor steps back onto the last token read, which a separator follows;
      that token and the value together are the whole run read, so nothing is
      lost; and a multi-long read from the new cursor starts with that token. */
  lemma LongRewind(t: seq<string>, i: int)
    requires 0 <= i <= |t|
    requires var k := NextDelimiter(t, i); k < |t| && t[k] == Separator && k > i
    ensures var k := NextDelimiter(t, i);
            var s := LongSpec(t, i);
            var c := s.cursor;
            s.result.Ok? && c == k - 1 && i <= c && t[c + 1] == Separator && IsPlain(t[c]) &&
            Join(t[i..k], " ") == (match s.result.value case None => "" case Some(v) => v + " ") + t[c] &&
            (MultiLongSpec(t, c).result.Ok? ==>
               var w := MultiLongSpec(t, c).result.value; |w| > 0 && w[0] == t[c])
  {
    var k := NextDelimiter(t, i);
    var c := k - 1;
    LongCharacterized(t, i);
    NextDelimiterRun(t, i);
    assert IsPlain(t[c]);
    LongRewindValue(t, i, k);
    // The two delimiter tokens differ.
    assert Terminator[0] != Separator[0];
    assert NextSeparator(t, c + 1) == c + 1;
    assert NextSeparator(t, c) == c + 1;
    assert t[c..c + 1] == [t[c]];
    MultiLongRestPrefix(t, c + 1, [Join(t[c..c + 1], " ")]);
  }

  /** `_get_long` returns no value and leaves the cursor where it was when
      a plain token is followed by a separator (as in `a , b`): it reads the
      token, meets the separator, steps back and drops the token. Repeated
      calls then never move on. */
  lemma LongStalls(t: seq<string>, i: int)
    requires 0 <= i && i + 1 < |t| && IsPlain(t[i]) && t[i + 1] == Separator
    ensures LongSpec(t, i) == Step(Ok(None), i)
  {
    assert t[i] != Separator && t[i] != Terminator;
    assert LongRest(t, i, i) == LongRest(t, i, i + 1);
    assert t[i..i] == [];
  }

  // -------------------------------------------------------------- dispatch

  function OptionValue(o: Option<string>): Value {
    match o
    case None => Absent
    case Some(s) => Text(s)
  }

  function ListValue(items: seq<string>): Value {
    Items(items)
  }

  function MapResult<T>(r: Result<T>, f: T -> Value): Result<Value> {
    match r
    case Ok(v) => Ok(f(v))
    case Err(e) => Err(e)
  }

  /** `get(long, multi)`: the accessor the two flags select. */
  function GetSpec(t: seq<string>, i: int, long: bool, multi: bool): Step<Value>
    requires 0 <= i <= |t|
  {
    var s :=
      if !multi && !long then
        var r := SingleSpec(t, i); Step(MapResult(r.result, OptionValue), r.cursor)
      else if multi && !long then
        var r := MultiSpec(t, i); Step(MapResult(r.result, ListValue), r.cursor)
      else if !multi && long then
        var r := LongSpec(t, i); Step(MapResult(r.result, OptionValue), r.cursor)
      else
        var r := MultiLongSpec(t, i); Step(MapResult(r.result, ListValue), r.cursor);
    s
  }
}
