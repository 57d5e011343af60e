// The tokenizer of args.py (`Args._preprocess`): every raw string is cut at
// each '.' (terminator) and ',' (separator) character; each delimiter becomes
// a token of its own and the non-empty runs between delimiters are kept as
// they are (no trimming).

module Tokens {
  import opened Seqs

  /** The two delimiter tokens, `Args.DELIMITERS`. */
  const Terminator: string := "."
  const Separator: string := ","

  predicate IsDelimiter(c: char) {
    c == '.' || c == ','
  }

  predicate DelimiterFree(s: string) {
    forall k :: 0 <= k < |s| ==> !IsDelimiter(s[k])
  }

  /** A token the accessors treat as a value: neither delimiter token. */
  predicate IsPlain(tok: string) {
    tok != Terminator && tok != Separator
  }

  /** The shape of every token the tokenizer emits. */
  predicate WellFormed(tok: string) {
    tok == Terminator || tok == Separator || (tok != "" && DelimiterFree(tok))
  }

  predicate AllWellFormed(toks: seq<string>) {
    forall k :: 0 <= k < |toks| ==> WellFormed(toks[k])
  }

  /** No two neighbouring tokens are both plain: a run is never cut in two. */
  predicate Maximal(toks: seq<string>) {
    forall k :: 0 < k < |toks| ==> !IsPlain(toks[k - 1]) || !IsPlain(toks[k])
  }

  /** Length of the delimiter-free run at the front of `s`. */
  function PlainRun(s: string): (k: nat)
    ensures k <= |s| && DelimiterFree(s[..k])
    ensures k == |s| || IsDelimiter(s[k])
  {
    if s == [] || IsDelimiter(s[0]) then 0
    else
      var k := 1 + PlainRun(s[1..]);
      assert s[..k] == [s[0]] + s[1..][..k - 1];
      k
  }

  /** Length of the first token of a non-empty string: a delimiter on its
      own, or the whole delimiter-free run at the front. */
  function FirstLength(s: string): (k: nat)
    requires s != []
    ensures 1 <= k <= |s|
  {
    if IsDelimiter(s[0]) then 1 else PlainRun(s)
  }

  /** The tokens of one raw string, by maximal munch from the front. */
  function Split(s: string): seq<string>
    decreases |s|
  {
    if s == [] then []
    else
      var k := FirstLength(s);
      [s[..k]] + Split(s[k..])
  }

  /** The tokens of a raw list: the tokens of each string, in order. */
  function Tokenize(raw: seq<string>): seq<string>
    decreases |raw|
  {
    if raw == [] then []
    else Tokenize(raw[..|raw| - 1]) + Split(raw[|raw| - 1])
  }

  /** The run length is determined by where the first delimiter is. */
  lemma {:induction false} PlainRunAt(s: string, k: nat)
    requires k <= |s| && DelimiterFree(s[..k])
    requires k == |s| || IsDelimiter(s[k])
    ensures PlainRun(s) == k
    decreases k
  {
    if k > 0 {
      assert s[..k][0] == s[0];
      assert s[1..][..k - 1] == s[..k][1..];
      PlainRunAt(s[1..], k - 1);
    }
  }

  /** A delimiter-free raw string is one token, or none when it is empty. */
  lemma SplitPlain(run: string)
    requires DelimiterFree(run)
    ensures Split(run) == if run == [] then [] else [run]
  {
    if run != [] {
      assert run[..|run|] == run;
      PlainRunAt(run, |run|);
    }
  }

  /** A delimiter at the front of a suffix is a token of its own. */
  lemma SplitDelimiterFront(s: string, r: int)
    requires 0 <= r < |s| && IsDelimiter(s[r])
    ensures Split(s[r..]) == [[s[r]]] + Split(s[r + 1..])
  {
    var u := s[r..];
    assert u[..1] == [s[r]];
    assert u[1..] == s[r + 1..];
  }

  /** A delimiter-free run up to a delimiter at the front of a suffix is a
      token of its own. */
  lemma SplitRunFront(s: string, l: int, r: int)
    requires 0 <= l < r < |s| && DelimiterFree(s[l..r]) && IsDelimiter(s[r])
    ensures Split(s[l..]) == [s[l..r]] + Split(s[r..])
  {
    var u, k := s[l..], r - l;
    assert u[..k] == s[l..r];
    assert u[k..] == s[r..];
    PlainRunAt(u, k);
  }

  /** The tokens of a suffix that starts with a delimiter-free run ended by
      a delimiter. */
  lemma SplitDelimiterAt(s: string, l: int, r: int)
    requires 0 <= l <= r < |s| && DelimiterFree(s[l..r]) && IsDelimiter(s[r])
    ensures Split(s[l..]) == (if r > l then [s[l..r]] else []) + [[s[r]]] + Split(s[r + 1..])
  {
    SplitDelimiterFront(s, r);
    if r > l {
      SplitRunFront(s, l, r);
      AppendAssoc([s[l..r]], [[s[r]]], Split(s[r + 1..]));
    } else {
      AppendEmpty([[s[r]]]);
    }
  }

  /** The scan of `_preprocess` over one raw string `s`, from a pending run
      `s[l..r]` and the tokens `acc` emitted so far: a delimiter flushes the
      pending run (when non-empty) and is emitted on its own; the end of the
      string flushes the pending run. */
  function Scan(s: string, l: int, r: int, acc: seq<string>): seq<string>
    requires 0 <= l <= r <= |s|
    decreases |s| - r
  {
    if r == |s| then (if r > l then acc + [s[l..r]] else acc)
    else if IsDelimiter(s[r]) then
      var flushed := if r > l then acc + [s[l..r]] else acc;
      Scan(s, r + 1, r + 1, flushed + [[s[r]]])
    else Scan(s, l, r + 1, acc)
  }

  /** A pending run grown by a character that is not a delimiter. */
  lemma RunExtend(s: string, l: int, r: int)
    requires 0 <= l <= r < |s| && DelimiterFree(s[l..r]) && !IsDelimiter(s[r])
    ensures DelimiterFree(s[l..r + 1])
  {
    var run, grown := s[l..r], s[l..r + 1];
    forall k | 0 <= k < |grown| ensures !IsDelimiter(grown[k]) {
      assert grown[k] == s[l + k];
      if k < |run| {
        assert run[k] == s[l + k];
      }
    }
  }

  /** The end of the scan: the pending run is the last token. */
  lemma ScanEnd(s: string, l: int, acc: seq<string>)
    requires 0 <= l <= |s| && DelimiterFree(s[l..|s|])
    ensures Scan(s, l, |s|, acc) == acc + Split(s[l..])
  {
    assert s[l..|s|] == s[l..];
    SplitPlain(s[l..]);
    AppendEmpty(acc);
  }

  /** A delimiter in the scan: the pending run and the delimiter are the next
      tokens, and the scan starts afresh after the delimiter. */
  lemma ScanDelimiter(s: string, l: int, r: int, acc: seq<string>)
    requires 0 <= l <= r < |s| && DelimiterFree(s[l..r]) && IsDelimiter(s[r])
    requires var flushed := if r > l then acc + [s[l..r]] else acc;
             Scan(s, r + 1, r + 1, flushed + [[s[r]]]) == flushed + [[s[r]]] + Split(s[r + 1..])
    ensures Scan(s, l, r, acc) == acc + Split(s[l..])
  {
    var run: seq<string> := if r > l then [s[l..r]] else [];
    var rest := Split(s[r + 1..]);
    AppendEmpty(acc);
    SplitDelimiterAt(s, l, r);
    AppendAssoc(acc + run, [[s[r]]], rest);
    AppendAssoc(acc, run, [[s[r]]] + rest);
    AppendAssoc(run, [[s[r]]], rest);
  }

  /** A plain character in the scan: the pending run grows. */
  lemma ScanPlainStep(s: string, l: int, r: int, acc: seq<string>)
    requires 0 <= l <= r < |s| && !IsDelimiter(s[r])
    requires Scan(s, l, r + 1, acc) == acc + Split(s[l..])
    ensures Scan(s, l, r, acc) == acc + Split(s[l..])
  {
  }

  /** The scan emits the maximal-munch tokens of what is left of the string. */
  lemma {:induction false} ScanSplit(s: string, l: int, r: int, acc: seq<string>)
    requires 0 <= l <= r <= |s| && DelimiterFree(s[l..r])
    ensures Scan(s, l, r, acc) == acc + Split(s[l..])
    decreases |s| - r
  {
    if r == |s| {
      ScanEnd(s, l, acc);
    } else if IsDelimiter(s[r]) {
      var flushed := if r > l then acc + [s[l..r]] else acc;
      ScanSplit(s, r + 1, r + 1, flushed + [[s[r]]]);
      ScanDelimiter(s, l, r, acc);
    } else {
      RunExtend(s, l, r);
      ScanSplit(s, l, r + 1, acc);
      ScanPlainStep(s, l, r, acc);
    }
  }

  /** The tokens of the raw strings before `i + 1`: those before `i`, then
      those of string `i`. */
  lemma TokenizeStep(raw: seq<string>, i: int)
    requires 0 <= i < |raw|
    ensures Tokenize(raw[..i + 1]) == Tokenize(raw[..i]) + Split(raw[i])
  {
    assert raw[..i + 1][..i] == raw[..i];
  }

  /** Round trip: the tokens of a raw string concatenate back to it. */
  lemma {:induction false} SplitConcat(s: string)
    ensures Join(Split(s), "") == s
    decreases |s|
  {
    if s != [] {
      var k := if IsDelimiter(s[0]) then 1 else PlainRun(s);
      assert [s[0]] == s[..1];
      assert Split(s) == [s[..k]] + Split(s[k..]);
      SplitConcat(s[k..]);
      JoinAppend([s[..k]], Split(s[k..]), "");
      assert s == s[..k] + s[k..];
    }
  }

  /** Every token of a raw string is a delimiter or a non-empty
      delimiter-free run, and no two runs are adjacent. */
  lemma {:induction false} SplitShape(s: string)
    ensures AllWellFormed(Split(s)) && Maximal(Split(s))
    decreases |s|
  {
    if s != [] {
      var k := if IsDelimiter(s[0]) then 1 else PlainRun(s);
      var rest := Split(s[k..]);
      SplitShape(s[k..]);
      assert [s[0]] == s[..1];
      assert Split(s) == [s[..k]] + rest;
      if !IsDelimiter(s[0]) && rest != [] {
        assert k < |s|;
        assert IsDelimiter(s[k..][0]);
        assert rest[0] == [s[k]];
      }
    }
  }

  /** The delimiter tokens are one delimiter character each. */
  lemma DelimiterToken(tok: string)
    requires WellFormed(tok) && !IsPlain(tok)
    ensures |tok| == 1 && IsDelimiter(tok[0])
  {
  }

  /** A well-formed token at the front of a string is its first token when
      a plain token there is followed by the end or a delimiter. */
  lemma SplitFront(s: string, head: string, tail: string)
    requires WellFormed(head) && s == head + tail
    requires IsPlain(head) ==> tail == [] || IsDelimiter(tail[0])
    ensures Split(s) == [head] + Split(tail)
  {
    var k := |head|;
    AppendParts(head, tail);
    if IsPlain(head) {
      PlainRunAt(s, k);
    }
    assert FirstLength(s) == k;
  }

  /** Dropping the first token keeps the shape of a token list. */
  lemma ShapeTail(toks: seq<string>)
    requires toks != [] && AllWellFormed(toks) && Maximal(toks)
    ensures AllWellFormed(toks[1..]) && Maximal(toks[1..])
  {
    var rest := toks[1..];
    forall j | 0 <= j < |rest| ensures WellFormed(rest[j]) {
      assert rest[j] == toks[j + 1];
    }
    forall j | 0 < j < |rest| ensures !IsPlain(rest[j - 1]) || !IsPlain(rest[j]) {
      assert rest[j - 1] == toks[j] && rest[j] == toks[j + 1];
    }
  }

  /** In a maximal list, what follows a plain token starts with a delimiter. */
  lemma PlainFollowed(toks: seq<string>)
    requires toks != [] && AllWellFormed(toks) && Maximal(toks) && IsPlain(toks[0])
    ensures var tail := Join(toks[1..], ""); tail == [] || IsDelimiter(tail[0])
  {
    var rest := toks[1..];
    if rest != [] {
      assert rest[0] == toks[1] && WellFormed(toks[1]) && !IsPlain(toks[1]);
      HeadTail(rest);
      ConcatCons(rest[0], rest[1..]);
      DelimiterToken(rest[0]);
    }
  }

  /** Conversely, the tokenizer's output is the only token list of that shape
      which concatenates back to the raw string. */
  lemma {:induction false} SplitUnique(s: string, toks: seq<string>)
    requires AllWellFormed(toks) && Maximal(toks)
    requires Join(toks, "") == s
    ensures toks == Split(s)
    decreases |toks|
  {
    if toks == [] {
      assert s == [];
    } else {
      var head, rest := toks[0], toks[1..];
      HeadTail(toks);
      ConcatCons(head, rest);
      ShapeTail(toks);
      SplitUnique(Join(rest, ""), rest);
      if IsPlain(head) {
        PlainFollowed(toks);
      }
      SplitFront(s, head, Join(rest, ""));
    }
  }

  /** The tokenizer of one raw string, characterized without reference to
      how it scans: the unique maximal list of well-formed tokens that
      concatenates back to the string. */
  lemma SplitCharacterized(s: string, toks: seq<string>)
    ensures toks == Split(s) <==> AllWellFormed(toks) && Maximal(toks) && Join(toks, "") == s
  {
    SplitShape(s);
    SplitConcat(s);
    if AllWellFormed(toks) && Maximal(toks) && Join(toks, "") == s {
      SplitUnique(s, toks);
    }
  }

  /** Round trip over the raw list: nothing but empty runs is dropped, and
      strings are not merged or reordered. */
  lemma {:induction false} TokenizeConcat(raw: seq<string>)
    ensures Join(Tokenize(raw), "") == Join(raw, "")
    decreases |raw|
  {
    if raw != [] {
      var init, last := raw[..|raw| - 1], raw[|raw| - 1];
      TokenizeConcat(init);
      SplitConcat(last);
      JoinAppend(Tokenize(init), Split(last), "");
      JoinAppend(init, [last], "");
      assert raw == init + [last];
    }
  }

  /** Every token the tokenizer emits is well formed. */
  lemma {:induction false} TokenizeWellFormed(raw: seq<string>)
    ensures AllWellFormed(Tokenize(raw))
    decreases |raw|
  {
    if raw != [] {
      TokenizeWellFormed(raw[..|raw| - 1]);
      SplitShape(raw[|raw| - 1]);
    }
  }
}
