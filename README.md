# args: a verified model of the `Args` command-line token parser

`Args` (args.py) turns a list of raw command-line strings into tokens. It then
reads values from them with a cursor. The model covers the whole class:

- **Tokenizer** (`_preprocess`). Each raw string is cut at every `.` (the
  terminator) and every `,` (the separator). Each delimiter becomes a token
  of its own. The non-empty runs between delimiters are kept untrimmed, and
  empty runs are dropped.
- **Cursor primitives** (`_at_start`, `_at_end`, `_peek`, `_advance`,
  `_backtrack`, `_match`, `_consume`, `_match_consume`). Their sanity
  `assert`s become preconditions. Every call inside the accessors is proved
  to meet them. The invariant `Args.Valid` is proved to hold after every
  operation. It holds `0 <= idx <= n`, and that every token is `.`, `,` or
  a non-empty run free of both.
- **Accessors** (`_get`, `_get_multi`, `_get_long`, `_get_multi_long`) and the
  `get` dispatcher. A fatal parse error is returned as `Err(kind)`, with the
  cursor left where `_err` would mark it. The three kinds are
  `InvalidMulti`, `InvalidLong` and `InvalidMultiLong`.
- **Rendering** (`__str__`, `__format__`) and the text `_err` writes.

Files:

- `seqs.dfy` (module `Seqs`): Python's `str.join` as `Join`, and small
  sequence facts.
- `tokens.dfy` (module `Tokens`): the tokenizer specified by maximal munch
  (`Split`, `Tokenize`), the loop-shaped `Scan` that `_preprocess` runs, and
  the lemmas that relate them.
- `rendering.dfy` (module `Rendering`): `Render` (`__str__`) and
  `Formatted` (`__format__`).
- `accessors.dfy` (module `Accessors`): what each accessor reads from a
  token list `t` with the cursor at `i`, as a `Step` (the result and the new
  cursor).
  - Each loop is specified twice: by a function that follows the loop
    (`MultiRest`, `LongRest`, `MultiLongRest`), and by an independent
    loop-free definition (`MultiGroup`, `LongRun`, `MultiLongGroups`).
  - Lemmas prove the two agree, and state what the source promises.
- `args.dfy` (module `ArgsParser`): class `Args` with fields `args`, `idx`
  and `n`. Its methods are written as the source's loops, and each is proved
  against the functions above.

The inner run loop of `_get_multi_long` occurs twice in the source (args.py
lines 158-159 and 170-171). It is written once, as `Args.ConsumeRun`. The
outer loop is the method `Args.GetMultiLongRest`. The part of that loop
after a `,` (the error check and the next run) is the method
`Args.ReadValue`.

### Where the code and its tests disagree

The model follows args.py:

- Tests 4-7 (tests/test_args.py:28-53) expect a second `get()` to return
  `"b"` after `a . b`. `_get` consumes the `.` and returns `None`
  (`SingleShape`).
- Test 15 (tests/test_args.py:100-104) expects trimming, and expects `.` to
  end a multi-long element. The tokenizer does not trim (`SplitConcat`). The
  run loops of `_get_multi_long` stop only at `,`, so a `.` inside a group is
  part of a value.
- Test 16 (tests/test_args.py:107-111) passes a `delimiters=` argument. The
  constructor has no such parameter, and the delimiters are fixed to `.`
  and `,`.

A consequence of the code as written is that a `_get_multi_long` that
returns a non-empty list always reads to the end of the tokens
(`MultiLongShape`). After each run the cursor is at a `,` or at the end, so
the `.` and `break` exits of its outer loop are never taken. (An empty list,
after a leading `.`, leaves the cursor just past that `.`.)

## Model

| member | source | states |
|---|---|---|
| Tokens.ScanSplit | args.py:42-56 | the inner loop over one raw string, from any state of `l`, `r` and the output so far, appends exactly the maximal-munch tokens of the rest of the string |
| Tokens.SplitPlain | args.py:46-56 | a delimiter-free raw string passes through as one token, and an empty one contributes none |
| Tokens.SplitConcat | args.py:46-56 | round trip: the tokens of a raw string concatenate back to it |
| Tokens.SplitShape | args.py:46-56 | every token is `.`, `,` or a non-empty delimiter-free run, and no two runs are adjacent |
| Tokens.SplitUnique | args.py:46-56 | any list of such tokens that concatenates back to the string is the tokenizer's output |
| Tokens.SplitCharacterized | args.py:46-56 | the tokens of a string are exactly the maximal list of well-formed tokens that concatenates back to it (both directions) |
| Tokens.TokenizeConcat | args.py:37-60 | round trip over the raw list: the tokens concatenate to the raw strings concatenated in order |
| Tokens.TokenizeWellFormed | args.py:37-60 | every token of the whole raw list is well formed |
| Rendering.RenderAppend | args.py:13-20 | rendering two token lists in turn adds one space between them, unless either is empty or the second starts with `,` |
| Rendering.MarkedPlain | args.py:22-30 | before the cursor, or without spec `c`, `format` lays the tokens out as `str` does |
| Rendering.MarkedAfter | args.py:22-30 | from the cursor on, `format` with spec `c` lays the tokens out as `str` does, with the token at the cursor in brackets |
| Rendering.FormatMarksCursor | args.py:22-35 | `format(args, "c")` is `str(args)` with the token at the cursor in brackets; any other spec gives `str(args)`; `[]` is appended exactly when the cursor is at the end |
| Accessors.SingleSpec | args.py:103-107 | `_get` never fails, and never moves the cursor back or past the end |
| Accessors.SingleShape | args.py:103-107 | `_get` at the end yields `None` and stays put; otherwise it advances exactly one token and yields it (a `,` included), or `None` for `.` |
| Accessors.MultiSpec | args.py:109-127 | `_get_multi` never moves the cursor back or past the end |
| Accessors.MultiRestSound | args.py:118-125 | the loop of `_get_multi` keeps what it read and adds a separated list of plain tokens, then a consumed `.`, the end or an unread plain token |
| Accessors.MultiRestComplete | args.py:118-125 | every such separated list is read by the loop, in full and in order |
| Accessors.MultiGrammar | args.py:109-127 | `_get_multi` yields `v` with the cursor at `j` if and only if the tokens from the cursor to `j` are the plain values `v` separated by `,` and ended by `.`, the end, or an unread plain token |
| Accessors.MultiRestError | args.py:118-123 | in the loop, an error is reported only after a `,` that is followed by the end, `,` or `.` |
| Accessors.MultiError | args.py:109-127 | `_get_multi` fails on a leading `,` without moving, or just after a `,` followed by the end, `,` or `.`; the error is `InvalidMulti` |
| Accessors.LongSpec | args.py:129-150 | `_get_long` never moves the cursor before its start or past the end |
| Accessors.LongCharacterized | args.py:129-150 | `_get_long` is the space-join of the plain tokens up to the next delimiter; a `.` there is consumed; a `,` there is an error with nothing read, and otherwise makes it step back onto the last token and drop it |
| Accessors.LongValueShape | args.py:129-150 | a value of `_get_long` is non-empty and holds neither `.` nor `,` |
| Accessors.LongRewind | args.py:132-140 | after a rewind, the cursor is on the dropped token, which is plain and followed by `,`; value and dropped token rebuild the run read; a multi-long read from there starts with that token |
| Accessors.LongStalls | args.py:129-150 | `_get_long` at a plain token followed by `,` (as in `a , b`) yields `None` and leaves the cursor where it started, so repeated calls never move on |
| Accessors.MultiLongSpec | args.py:152-175 | `_get_multi_long` never moves the cursor back or past the end |
| Accessors.MultiLongCharacterized | args.py:152-175 | the loops of `_get_multi_long` agree with the loop-free definition: fail at the first dangling `,`, otherwise the space-joined runs between the `,` tokens to the end |
| Accessors.MultiLongShape | args.py:152-175 | a non-empty result of `_get_multi_long` reads to the end; no value holds `,` or is `.`; each value after the first is non-empty; the first is empty exactly when the group starts with `,`; the values joined by `", "` are `str` of the tokens read |
| Accessors.MultiLongError | args.py:163-168 | for a group that does not start with `.` (which is consumed and ends it), `_get_multi_long` fails if and only if some `,` at or after the start is followed by the end, `,` or `.`; the error is `InvalidMultiLong`, marked just after the first such `,` |
| ArgsParser.Args.constructor | args.py:7-11 | the tokens are the raw list tokenized, every token is well formed, and the cursor is at the start |
| ArgsParser.Args.Preprocess | args.py:37-60 | the nested loops replace the raw strings by `Tokenize` of them |
| ArgsParser.Args.AtStart | args.py:67-70 | true exactly when no token has been read yet |
| ArgsParser.Args.AtEnd | args.py:72-75 | true exactly when no token is left to read: the cursor stands at the length of the token list |
| ArgsParser.Args.Peek | args.py:77-79 | off the end, the token under the cursor, which is well formed |
| ArgsParser.Args.Match | args.py:89-90 | off the end, true exactly when the token under the cursor is the one given |
| ArgsParser.Args.Advance | args.py:81-83 | off the end, the cursor moves forward by one |
| ArgsParser.Args.Backtrack | args.py:85-87 | off the start, the cursor moves back by one |
| ArgsParser.Args.Consume | args.py:92-95 | yields the token under the cursor and moves past it |
| ArgsParser.Args.MatchConsume | args.py:97-101 | moves past the token under the cursor exactly when it equals the one given, and says whether it did |
| ArgsParser.Args.GetSingle | args.py:103-107 | `_get` yields the value and cursor of `SingleSpec` |
| ArgsParser.Args.GetMulti | args.py:109-127 | `_get_multi`'s loop yields the value or error, and cursor, of `MultiSpec` |
| ArgsParser.Args.GetLong | args.py:129-150 | `_get_long`'s loop, including the rewind, yields the value or error, and cursor, of `LongSpec` |
| ArgsParser.Args.ConsumeRun | args.py:158-159 | the run loop consumes the tokens up to the next `,` or the end, and yields exactly them |
| ArgsParser.Args.GetMultiLong | args.py:152-162 | `_get_multi_long` yields the value or error, and cursor, of `MultiLongSpec` |
| ArgsParser.Args.ReadValue | args.py:167-173 | after a `,`: an `InvalidMultiLong` error without moving when the tokens end or a delimiter follows; otherwise the tokens up to the next `,` or the end, consumed and joined with spaces |
| ArgsParser.Args.GetMultiLongRest | args.py:163-175 | the outer loop of `_get_multi_long` adds the value or error, and cursor, of `MultiLongRest` |
| ArgsParser.Args.Get | args.py:177-190 | `get` runs the accessor its two flags select (both off by default, giving `_get`), and the cursor never moves back |
| ArgsParser.Args.ToString | args.py:13-20 | the loop builds `Render` of the tokens |
| ArgsParser.Args.Format | args.py:22-35 | the loop builds `Formatted` of the tokens and cursor, with the mark exactly when the spec is `c` |
| ArgsParser.Args.Report | args.py:62-65 | the text of an error: the message of its kind, then the tokens formatted with spec `c` |

## Left out

- The `argv[1:]` fallback of the constructor (args.py:8) reads the process
  arguments. The constructor takes the raw list as a parameter. The quirk
  that an empty list also falls back to `argv` is not modelled.
- Printing to `stderr` and `exit(1)` in `_err` (args.py:62-65) and in
  `_get_long` (args.py:134-136) are I/O. An error is returned as
  `Err(kind)` instead, and `Args.Report` gives the text that would be
  printed.
- `__str__` and `__format__` append pieces to a list and join it with
  `""`. The model appends to a string, which gives the same text.
- `__format__` compares `spec == "c"` for every token. The model compares
  once before the loop, since `spec` does not change.
- The `assert False` after the dispatch in `get` (args.py:190) cannot be
  reached, because the four flag cases are exhaustive.
- Behaviour that only the tests expect is not modelled, because it would
  contradict args.py. That covers consuming a `.` after a single value,
  trimming, `.` ending a multi-long element, and configurable delimiters.
