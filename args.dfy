// The class `Args` of args.py: the token list built once by the tokenizer,
// and a cursor `idx` over it that the accessors move. A fatal parse error is
// returned as `Err(kind)`, with the cursor left where the error message would
// mark it.

module ArgsParser {
  import opened Seqs
  import opened Tokens
  import opened Rendering
  import opened Accessors

  /** The first line `_err` prints for each error. */
  function Message(kind: ErrorKind): string {
    match kind
    case InvalidMulti => "invalid multi arg"
    case InvalidLong => "invalid long arg"
    case InvalidMultiLong => "invalid multi long arg"
  }

  class Args {
    var args: seq<string>
    var idx: int
    var n: int

    /** The sanity check of `_at_start` and `_at_end`, and the shape of every
      token the tokenizer emits. */
    ghost predicate Valid()
      reads this
    {
      n == |args| && 0 <= idx <= n && AllWellFormed(args)
    }

    /** `Args(raw)`: tokenize `raw` and put the cursor at the start. */
    constructor (raw: seq<string>)
      ensures Valid() && args == Tokenize(raw) && idx == 0
    {
      args := raw;
      new;
      Preprocess();
      idx := 0;
      n := |args|;
      TokenizeWellFormed(raw);
    }

    /** `_preprocess`: replace the raw strings by their tokens. */
    method Preprocess()
      modifies this`args
      ensures args == Tokenize(old(args))
    {
      var raw := args;
      var out: seq<string> := [];
      var i := 0;
      var count := |raw|;
      while i < count
        invariant 0 <= i <= count == |raw|
        invariant out == Tokenize(raw[..i])
      {
        var l, r := 0, 0;
        var s := raw[i];
        var m := |s|;
        ghost var before := out;
        while r < m
          invariant 0 <= l <= r <= m
          invariant Scan(s, l, r, out) == Scan(s, 0, 0, before)
        {
          if IsDelimiter(s[r]) {
            if r > l {
              out := out + [s[l..r]];
            }
            out := out + [[s[r]]];
            l, r := r + 1, r + 1;
          } else {
            r := r + 1;
          }
        }
        if r > l {
          out := out + [raw[i][l..r]];
        }
        ScanSplit(s, 0, 0, before);
        TokenizeStep(raw, i);
        i := i + 1;
      }
      assert raw[..count] == raw;
      args := out;
    }

    /** Nothing has been read yet. */
    predicate AtStart()
      requires Valid()
      reads this
      ensures AtStart() <==> args[..idx] == []
    {
      idx == 0
    }

    /** Nothing is left to read. */
    predicate AtEnd()
      requires Valid()
      reads this
      ensures AtEnd() <==> idx == |args|
    {
      idx == n
    }

    /** The next token to read. */
    function Peek(): (tok: string)
      requires Valid() && !AtEnd()
      reads this
      ensures tok == args[idx] && WellFormed(tok)
    {
      args[idx]
    }

    /** The next token to read is `s`. */
    predicate Match(s: string)
      requires Valid() && !AtEnd()
      reads this
      ensures Match(s) <==> args[idx] == s
    {
      Peek() == s
    }

    method Advance()
      requires Valid() && !AtEnd()
      modifies this`idx
      ensures Valid() && idx == old(idx) + 1
    {
      idx := idx + 1;
    }

    method Backtrack()
      requires Valid() && !AtStart()
      modifies this`idx
      ensures Valid() && idx == old(idx) - 1
    {
      idx := idx - 1;
    }

    method Consume() returns (tok: string)
      requires Valid() && !AtEnd()
      modifies this`idx
      ensures Valid() && tok == args[old(idx)] && idx == old(idx) + 1
    {
      tok := Peek();
      Advance();
    }

    method MatchConsume(s: string) returns (matched: bool)
      requires Valid() && !AtEnd()
      modifies this`idx
      ensures Valid() && matched == (args[old(idx)] == s)
      ensures idx == if matched then old(idx) + 1 else old(idx)
    {
      matched := Match(s);
      if matched {
        Advance();
      }
    }

    /** `_get`. */
    method GetSingle() returns (r: Option<string>)
      requires Valid()
      modifies this`idx
      ensures Valid() && Step(Ok(r), idx) == SingleSpec(args, old(idx))
    {
      if AtEnd() {
        return None;
      }
      var dot := MatchConsume(Terminator);
      if dot {
        return None;
      }
      var tok := Consume();
      return Some(tok);
    }

    /** `_get_multi`. */
    method GetMulti() returns (r: Result<seq<string>>)
      requires Valid()
      modifies this`idx
      ensures Valid() && Step(r, idx) == MultiSpec(args, old(idx))
    {
      if AtEnd() {
        return Ok([]);
      }
      var dot := MatchConsume(Terminator);
      if dot {
        return Ok([]);
      }
      var multi: seq<string> := [];
      if Match(Separator) {
        return Err(InvalidMulti);
      }
      var first := Consume();
      multi := multi + [first];
      assert multi == [args[old(idx)]];
      while true
        invariant Valid() && old(idx) < idx
        invariant MultiRest(args, idx, multi) == MultiSpec(args, old(idx))
        decreases n - idx
      {
        if AtEnd() {
          break;
        }
        dot := MatchConsume(Terminator);
        if dot {
          break;
        }
        var comma := MatchConsume(Separator);
        if !comma {
          break;
        }
        if AtEnd() || Match(Separator) || Match(Terminator) {
          return Err(InvalidMulti);
        }
        var tok := Consume();
        multi := multi + [tok];
      }
      return Ok(multi);
    }

    /** `_get_long`. */
    method GetLong() returns (r: Result<Option<string>>)
      requires Valid()
      modifies this`idx
      ensures Valid() && Step(r, idx) == LongSpec(args, old(idx))
    {
      var long: seq<string> := [];
      while !AtEnd()
        invariant Valid() && old(idx) <= idx
        invariant long == args[old(idx)..idx]
        invariant LongRest(args, old(idx), idx) == LongSpec(args, old(idx))
        decreases n - idx
      {
        if Match(Separator) {
          if long == [] {
            return Err(InvalidLong);
          }
          SliceShrink(args, old(idx), idx);
          Backtrack();
          long := long[..|long| - 1];
          break;
        } else {
          var dot := MatchConsume(Terminator);
          if dot {
            break;
          }
          SliceExtend(args, old(idx), idx);
          var tok := Consume();
          long := long + [tok];
        }
      }
      if long == [] {
        return Ok(None);
      }
      return Ok(Some(Join(long, " ")));
    }

    /** The inner loop `_get_multi_long` runs twice: the tokens up to the
        next separator or the end. */
    method ConsumeRun() returns (long: seq<string>)
      requires Valid()
      modifies this`idx
      ensures Valid() && idx == NextSeparator(args, old(idx))
      ensures long == args[old(idx)..idx]
    {
      long := [];
      while !AtEnd() && !Match(Separator)
        invariant Valid() && old(idx) <= idx
        invariant NextSeparator(args, idx) == NextSeparator(args, old(idx))
        invariant long == args[old(idx)..idx]
        decreases n - idx
      {
        SliceExtend(args, old(idx), idx);
        var tok := Consume();
        long := long + [tok];
      }
    }

    /** `_get_multi_long`, up to its outer loop. */
    method GetMultiLong() returns (r: Result<seq<string>>)
      requires Valid()
      modifies this`idx
      ensures Valid() && Step(r, idx) == MultiLongSpec(args, old(idx))
    {
      if AtEnd() {
        return Ok([]);
      }
      var dot := MatchConsume(Terminator);
      if dot {
        return Ok([]);
      }
      var multi: seq<string> := [];
      ghost var start := idx;
      var long := ConsumeRun();
      multi := multi + [Join(long, " ")];
      assert multi == [Join(args[start..NextSeparator(args, start)], " ")];
      r := GetMultiLongRest(multi);
    }

    /** The outer loop of `_get_multi_long`, entered with the values read. */
    method GetMultiLongRest(values: seq<string>) returns (r: Result<seq<string>>)
      requires Valid()
      modifies this`idx
      ensures Valid() && Step(r, idx) == MultiLongRest(args, old(idx), values)
    {
      var multi := values;
      while true
        invariant Valid() && old(idx) <= idx
        invariant MultiLongRest(args, idx, multi) == MultiLongRest(args, old(idx), values)
        decreases n - idx
      {
        if AtEnd() {
          break;
        }
        var dot := MatchConsume(Terminator);
        if dot {
          break;
        }
        var comma := MatchConsume(Separator);
        if !comma {
          break;
        }
        var value := ReadValue();
        if value.Err? {
          return Err(value.kind);
        }
        multi := multi + [value.value];
      }
      return Ok(multi);
    }

    /** One value of `_get_multi_long` after a separator: an error when the
      tokens end or a delimiter follows; otherwise the tokens up to the next
      separator or the end, joined with spaces. */
    method ReadValue() returns (r: Result<string>)
      requires Valid()
      modifies this`idx
      ensures Valid()
      ensures old(idx) == n || !IsPlain(args[old(idx)]) ==> r == Err(InvalidMultiLong) && idx == old(idx)
      ensures old(idx) < n && IsPlain(args[old(idx)]) ==>
                old(idx) < idx == NextSeparator(args, old(idx)) && r == Ok(Join(args[old(idx)..idx], " "))
    {
      if AtEnd() || Match(Separator) || Match(Terminator) {
        return Err(InvalidMultiLong);
      }
      var long := ConsumeRun();
      return Ok(Join(long, " "));
    }

    /** `get(long, multi)`. */
    method Get(long: bool := false, multi: bool := false) returns (r: Result<Value>)
      requires Valid()
      modifies this`idx
      ensures Valid() && old(idx) <= idx
      ensures Step(r, idx) == GetSpec(args, old(idx), long, multi)
    {
      if !multi && !long {
        var single := GetSingle();
        r := Ok(OptionValue(single));
      } else if multi && !long {
        var items := GetMulti();
        r := MapResult(items, ListValue);
      } else if !multi && long {
        var text := GetLong();
        r := MapResult(text, OptionValue);
      } else {
        var items := GetMultiLong();
        r := MapResult(items, ListValue);
      }
    }

    /** `str(args)`. */
    method ToString() returns (line: string)
      requires Valid()
      ensures line == Render(args)
    {
      line := "";
      for i := 0 to n
        invariant line == Line(args, 0, i)
      {
        if i > 0 && args[i] != Separator {
          line := line + " ";
        }
        line := line + args[i];
      }
    }

    /** `format(args, spec)`. */
    method Format(spec: string) returns (line: string)
      requires Valid()
      ensures line == Formatted(args, idx, spec == "c")
    {
      var cursor := spec == "c";
      line := "";
      for i := 0 to n
        invariant line == Marked(args, idx, cursor, i)
      {
        if i > 0 && args[i] != Separator {
          line := line + " ";
        }
        if cursor && i == idx {
          line := line + "[" + args[i] + "]";
        } else {
          line := line + args[i];
        }
      }
      if AtEnd() {
        line := line + "[]";
      }
    }

    /** The two lines `_err` prints before exiting. */
    method Report(kind: ErrorKind) returns (text: string)
      requires Valid()
      ensures text == Message(kind) + ":\n  " + Formatted(args, idx, true) + "\n"
    {
      var marked := Format("c");
      text := Message(kind) + ":\n" + "  " + marked + "\n";
    }
  }
}
