/**
 * The fence classifier: a chat log is split on triple-backtick fences and
 * every non-blank piece becomes a `code` block (odd split position) or a
 * `text` block (even split position). The split is the regular expression
 * ```` ```(?:[a-zA-Z]*)?\n? ````, so every fence, opening or closing, also
 * swallows the run of ASCII letters right after it and then one newline.
 */
module LambdaClassifier {
  import opened PyValues
  import opened Text

  /** The input limit, about 20k tokens. */
  const MaxChars: nat := 100000

  /** `validate_input_length`: a text longer than `MaxChars` is refused. */
  function ValidateInputLength(text: string): (r: Result<()>)
    ensures r.Ok? <==> |text| <= MaxChars
    ensures r.Err? ==> r.error.ValueError?
    ensures r.Err? ==> "Input too long (" + NatToString(|text|) + " chars). " <= r.error.msg
  {
    if |text| > MaxChars then
      Err(ValueError("Input too long (" + NatToString(|text|) + " chars). "
        + "Limit is 100,000 characters (~20k tokens). "
        + "Please trim or split your file before analysis."))
    else Ok(())
  }

  /** A string of exactly `MaxChars` characters passes; one more character is refused. */
  lemma InputLimitIsInclusive(text: string)
    ensures |text| == 100000 ==> ValidateInputLength(text) == Ok(())
    ensures |text| == 100001 ==> ValidateInputLength(text).Err?
  {
  }

  datatype BlockKind = TextBlock | CodeBlock

  /** `{"type": "code"|"text", "content": ...}`. */
  datatype Block = Block(kind: BlockKind, content: string)

  /** The strings of a list of `Str` values. */
  function Strings(items: seq<Value>): (r: seq<string>)
    requires forall i :: 0 <= i < |items| ==> items[i].Str?
    ensures |r| == |items| && forall i :: 0 <= i < |items| ==> r[i] == items[i].s
  {
    if items == [] then [] else [items[0].s] + Strings(items[1..])
  }

  /** The index of the first item that is not a string, if any. */
  function FirstNonString(items: seq<Value>): (r: Option<nat>)
    ensures r.None? <==> forall i :: 0 <= i < |items| ==> items[i].Str?
    ensures r.Some? ==> r.value < |items| && !items[r.value].Str?
    ensures r.Some? ==> forall i :: 0 <= i < r.value ==> items[i].Str?
  {
    if items == [] then None
    else if !items[0].Str? then Some(0)
    else match FirstNonString(items[1..])
      case None => None
      case Some(k) => Some(k + 1)
  }

  /**
   * The text that is classified: a string as it is, a list of strings joined
   * with "\n" (`str.join` refuses a non-string item), anything else refused.
   */
  function ChatLogText(chatLog: Value): (r: Result<string>)
    ensures chatLog.Str? ==> r == Ok(chatLog.s)
    ensures chatLog.List? && (forall i :: 0 <= i < |chatLog.items| ==> chatLog.items[i].Str?)
      ==> r == Ok(Join("\n", Strings(chatLog.items)))
    ensures chatLog.List? && r.Err? ==> r.error.TypeError?
    ensures !chatLog.Str? && !chatLog.List? ==> r == Err(ValueError("chat_log must be a string or list of strings"))
  {
    match chatLog
    case Str(s) => Ok(s)
    case List(items) =>
      (match FirstNonString(items)
       case None => Ok(Join("\n", Strings(items)))
       case Some(k) => Err(TypeError("sequence item " + NatToString(k) + ": expected str instance, "
                                     + TypeName(items[k]) + " found")))
    case _ => Err(ValueError("chat_log must be a string or list of strings"))
  }

  predicate IsAsciiLetter(c: char) {
    'a' <= c <= 'z' || 'A' <= c <= 'Z'
  }

  /** The length of the run of ASCII letters that `t` starts with. */
  function LetterRun(t: string): (k: nat)
    ensures k <= |t|
    ensures forall i :: 0 <= i < k ==> IsAsciiLetter(t[i])
    ensures k == |t| || !IsAsciiLetter(t[k])
  {
    if t != [] && IsAsciiLetter(t[0]) then 1 + LetterRun(t[1..]) else 0
  }

  /** What is left after a fence has swallowed its language tag and one newline. */
  function AfterLabel(t: string): string {
    var k := LetterRun(t);
    if k < |t| && t[k] == '\n' then t[k + 1..] else t[k..]
  }

  /** Letters and a newline are not backticks, so swallowing them loses no fence. */
  lemma {:induction false} AfterLabelKeepsFences(t: string)
    ensures CountFences(AfterLabel(t)) == CountFences(t)
  {
    var k := LetterRun(t);
    var i := 0;
    while i < k
      invariant 0 <= i <= k
      invariant CountFences(t[i..]) == CountFences(t)
    {
      CountFencesSkip(t[i..]);
      assert t[i..][1..] == t[i + 1..];
      i := i + 1;
    }
    if k < |t| && t[k] == '\n' {
      CountFencesSkip(t[k..]);
      assert t[k..][1..] == t[k + 1..];
    }
  }

  /** `re.split(r"```(?:[a-zA-Z]*)?\n?", s)`. */
  function FenceSplit(s: string): (pieces: seq<string>)
    ensures |pieces| == CountFences(s) + 1
  {
    if |s| < 3 then [s]
    else if s[..3] == Fence then
      AfterLabelKeepsFences(s[3..]);
      [""] + FenceSplit(AfterLabel(s[3..]))
    else
      var rest := FenceSplit(s[1..]);
      [[s[0]] + rest[0]] + rest[1..]
  }

  /** The type a piece gets from its split position. */
  function KindAt(idx: nat): BlockKind {
    if idx % 2 == 1 then CodeBlock else TextBlock
  }

  /** `block.strip()` for every piece. */
  function Stripped(pieces: seq<string>): (contents: seq<string>)
    ensures |contents| == |pieces|
  {
    if pieces == [] then [] else [Strip(pieces[0])] + Stripped(pieces[1..])
  }

  /** Content i is piece i, stripped. */
  lemma {:induction false} StrippedAt(pieces: seq<string>, i: nat)
    requires i < |pieces|
    ensures Stripped(pieces)[i] == Strip(pieces[i])
  {
    if i > 0 {
      StrippedAt(pieces[1..], i - 1);
    }
  }

  /** The blocks made from the first `n` stripped pieces: the non-blank ones, typed by position. */
  function ClassifyPieces(contents: seq<string>, n: nat): seq<Block>
    requires n <= |contents|
  {
    if n == 0 then []
    else ClassifyPieces(contents, n - 1) + (if contents[n - 1] == [] then [] else [Block(KindAt(n - 1), contents[n - 1])])
  }

  /** `classify_blocks` as a value. */
  function Classify(chatLog: Value): Result<seq<Block>> {
    match ChatLogText(chatLog)
    case Err(e) => Err(e)
    case Ok(log) =>
      var fenceCount := CountFences(log);
      if fenceCount % 2 != 0 then
        Err(ValueError("Unmatched code fence: found " + NatToString(fenceCount) + " backticks."))
      else
        var pieces := FenceSplit(log);
        Ok(ClassifyPieces(Stripped(pieces), |pieces|))
  }

  /** The loop of `classify_blocks`: strip the pieces one by one, and type and keep the non-blank ones. */
  method TypePieces(blocks: seq<string>) returns (result: seq<Block>)
    ensures result == ClassifyPieces(Stripped(blocks), |blocks|)
  {
    ghost var contents := Stripped(blocks);
    result := [];
    var idx := 0;
    while idx < |blocks|
      invariant 0 <= idx <= |blocks|
      invariant result == ClassifyPieces(contents, idx)
    {
      var content := Strip(blocks[idx]);
      StrippedAt(blocks, idx);
      ClassifyPiecesNext(contents, idx);
      if content != [] {
        result := result + [Block(KindAt(idx), content)];
      }
      idx := idx + 1;
    }
  }

  lemma ClassifyPiecesNext(contents: seq<string>, n: nat)
    requires n < |contents|
    ensures ClassifyPieces(contents, n + 1) ==
      ClassifyPieces(contents, n) + (if contents[n] == [] then [] else [Block(KindAt(n), contents[n])])
  {
  }

  /** `classify_blocks`: check the fences, split the log, then type its pieces. */
  method ClassifyBlocks(chatLog: Value) returns (r: Result<seq<Block>>)
    ensures r == Classify(chatLog)
  {
    var text := ChatLogText(chatLog);
    if text.Err? {
      return Err(text.error);
    }
    var log := text.value;
    var fenceCount := CountFences(log);
    if fenceCount % 2 != 0 {
      return Err(ValueError("Unmatched code fence: found " + NatToString(fenceCount) + " backticks."));
    }
    var blocks := FenceSplit(log);
    var result := TypePieces(blocks);
    return Ok(result);
  }

  /** The split positions of the pieces that became blocks, in order. */
  ghost function Origins(contents: seq<string>, n: nat): seq<nat>
    requires n <= |contents|
  {
    if n == 0 then []
    else Origins(contents, n - 1) + (if contents[n - 1] == [] then [] else [n - 1])
  }

  /** One more piece adds its position to the origins exactly when it is not blank. */
  lemma OriginsStep(contents: seq<string>, n: nat)
    requires 0 < n <= |contents|
    ensures Origins(contents, n) == Origins(contents, n - 1) + (if contents[n - 1] == [] then [] else [n - 1])
  {
  }

  /** The origins are split positions below `n`, in increasing order. */
  lemma {:induction false} OriginsIncreasing(contents: seq<string>, n: nat)
    requires n <= |contents|
    ensures forall k :: 0 <= k < |Origins(contents, n)| ==> Origins(contents, n)[k] < n
    ensures forall k, l :: 0 <= k < l < |Origins(contents, n)| ==> Origins(contents, n)[k] < Origins(contents, n)[l]
  {
    if n > 0 {
      OriginsIncreasing(contents, n - 1);
      OriginsStep(contents, n);
      var o, o' := Origins(contents, n - 1), Origins(contents, n);
      forall k | 0 <= k < |o'| ensures o'[k] < n {
        if k < |o| { assert o'[k] == o[k]; }
      }
      forall k, l | 0 <= k < l < |o'| ensures o'[k] < o'[l] {
        assert o'[k] == o[k];
        if l < |o| { assert o'[l] == o[l]; } else { assert o'[l] == n - 1; }
      }
    }
  }

  /** A split position is an origin exactly when its piece is not blank. */
  lemma {:induction false} OriginsExactlyNonBlank(contents: seq<string>, n: nat)
    requires n <= |contents|
    ensures forall j :: 0 <= j < n ==> (j in Origins(contents, n) <==> contents[j] != [])
  {
    if n > 0 {
      OriginsExactlyNonBlank(contents, n - 1);
      OriginsIncreasing(contents, n - 1);
      OriginsStep(contents, n);
      var o, o' := Origins(contents, n - 1), Origins(contents, n);
      assert n - 1 !in o;
      forall j | 0 <= j < n ensures j in o' <==> contents[j] != [] {
        if j < n - 1 {
          assert j in o' <==> j in o;
        }
      }
    }
  }

  /**
   * Block k comes from piece `Origins[k]`: its content is that stripped piece
   * and its type is the parity of that piece's split position, so dropped
   * pieces never shift the type of later ones.
   */
  lemma {:induction false} ClassifyPiecesOrigins(contents: seq<string>, n: nat)
    requires n <= |contents|
    ensures |Origins(contents, n)| == |ClassifyPieces(contents, n)|
    ensures forall k :: 0 <= k < |Origins(contents, n)| ==>
      Origins(contents, n)[k] < n
      && ClassifyPieces(contents, n)[k] == Block(KindAt(Origins(contents, n)[k]), contents[Origins(contents, n)[k]])
  {
    if n > 0 {
      ClassifyPiecesOrigins(contents, n - 1);
      OriginsStep(contents, n);
      var o, bs := Origins(contents, n - 1), ClassifyPieces(contents, n - 1);
      var o', bs' := Origins(contents, n), ClassifyPieces(contents, n);
      var content := contents[n - 1];
      if content == [] {
        assert o' == o && bs' == bs;
      } else {
        assert o' == o + [n - 1] && bs' == bs + [Block(KindAt(n - 1), content)];
        forall k | 0 <= k < |o'| ensures o'[k] < n && bs'[k] == Block(KindAt(o'[k]), contents[o'[k]]) {
          if k < |o| {
            assert o'[k] == o[k] && bs'[k] == bs[k];
          }
        }
      }
    }
  }

  /** Every block is non-blank and is one of the contents, and there are at most as many blocks as pieces. */
  lemma {:induction false} ClassifyPiecesShape(contents: seq<string>, n: nat)
    requires n <= |contents|
    ensures |ClassifyPieces(contents, n)| <= n
    ensures forall b :: b in ClassifyPieces(contents, n) ==> b.content != [] && b.content in contents
  {
    if n > 0 {
      ClassifyPiecesShape(contents, n - 1);
    }
  }

  /** An odd number of fences is refused and yields no blocks. */
  lemma OddFenceCountRefused(chatLog: Value, log: string)
    requires ChatLogText(chatLog) == Ok(log)
    requires CountFences(log) % 2 == 1
    ensures Classify(chatLog) == Err(ValueError("Unmatched code fence: found " + NatToString(CountFences(log)) + " backticks."))
  {
  }

  /** The stripped contents are the pieces, each stripped. */
  lemma StrippedEach(pieces: seq<string>)
    ensures forall i :: 0 <= i < |pieces| ==> Stripped(pieces)[i] == Strip(pieces[i])
  {
    forall i | 0 <= i < |pieces| ensures Stripped(pieces)[i] == Strip(pieces[i]) {
      StrippedAt(pieces, i);
    }
  }

  /** The blocks typed from any split are non-blank and stripped, and no more than the pieces. */
  lemma PiecesShape(pieces: seq<string>)
    ensures var blocks := ClassifyPieces(Stripped(pieces), |pieces|);
      |blocks| <= |pieces|
      && (forall b :: b in blocks ==> b.content != [] && IsStripped(b.content))
  {
    var contents := Stripped(pieces);
    ClassifyPiecesShape(contents, |pieces|);
    StrippedEach(pieces);
    forall b | b in ClassifyPieces(contents, |pieces|) ensures IsStripped(b.content) {
      var i :| 0 <= i < |contents| && contents[i] == b.content;
    }
  }

  /** Each block typed from any split is its origin's piece, stripped and typed by that piece's parity. */
  lemma PiecesOrigins(pieces: seq<string>)
    ensures var blocks, o := ClassifyPieces(Stripped(pieces), |pieces|), Origins(Stripped(pieces), |pieces|);
      |o| == |blocks|
      && forall k :: 0 <= k < |blocks| ==> o[k] < |pieces| && blocks[k] == Block(KindAt(o[k]), Strip(pieces[o[k]]))
  {
    ClassifyPiecesOrigins(Stripped(pieces), |pieces|);
    StrippedEach(pieces);
  }

  /** The origins of the blocks typed from any split are exactly the pieces that are not blank. */
  lemma PiecesOriginsNonBlank(pieces: seq<string>)
    ensures forall j :: 0 <= j < |pieces| ==> (j in Origins(Stripped(pieces), |pieces|) <==> Strip(pieces[j]) != [])
  {
    OriginsExactlyNonBlank(Stripped(pieces), |pieces|);
    StrippedEach(pieces);
  }

  /**
   * On a balanced log the result is Ok; its blocks are non-blank and stripped,
   * at most one more than the number of fences, and each is typed by the
   * parity of the split position it came from.
   */
  lemma BalancedLogClassified(chatLog: Value, log: string)
    requires ChatLogText(chatLog) == Ok(log)
    requires CountFences(log) % 2 == 0
    ensures Classify(chatLog).Ok?
    ensures |Classify(chatLog).value| <= CountFences(log) + 1
    ensures forall b :: b in Classify(chatLog).value ==> b.content != [] && IsStripped(b.content)
    ensures var pieces := FenceSplit(log);
      |Origins(Stripped(pieces), |pieces|)| == |Classify(chatLog).value|
    ensures var pieces := FenceSplit(log); var o := Origins(Stripped(pieces), |pieces|);
      forall k :: 0 <= k < |Classify(chatLog).value| ==>
        o[k] < |pieces| && Classify(chatLog).value[k] == Block(KindAt(o[k]), Strip(pieces[o[k]]))
    ensures var pieces := FenceSplit(log); var o := Origins(Stripped(pieces), |pieces|);
      forall k, l :: 0 <= k < l < |o| ==> o[k] < o[l]
    ensures var pieces := FenceSplit(log);
      forall j :: 0 <= j < |pieces| ==> (j in Origins(Stripped(pieces), |pieces|) <==> Strip(pieces[j]) != [])
  {
    var pieces := FenceSplit(log);
    assert Classify(chatLog) == Ok(ClassifyPieces(Stripped(pieces), |pieces|));
    PiecesShape(pieces);
    PiecesOrigins(pieces);
    OriginsIncreasing(Stripped(pieces), |pieces|);
    PiecesOriginsNonBlank(pieces);
  }

  /** A stretch without backticks joins the first piece of whatever follows it. */
  lemma {:induction false} FenceSplitSkipsPlainPrefix(a: string, rest: string)
    requires NoBacktick(a)
    ensures FenceSplit(a + rest) == [a + FenceSplit(rest)[0]] + FenceSplit(rest)[1..]
  {
    var f := FenceSplit(rest);
    if a == [] {
      assert a + rest == rest;
      assert a + f[0] == f[0];
      assert [f[0]] + f[1..] == f;
    } else {
      var s := a + rest;
      assert s[1..] == a[1..] + rest;
      FenceSplitSkipsPlainPrefix(a[1..], rest);
      if |s| >= 3 {
        assert s[..3] != Fence by { assert s[..3][0] == a[0]; }
        assert [s[0]] + (a[1..] + f[0]) == a + f[0];
      } else {
        assert f == [rest];
      }
    }
  }

  /** A fence ends the current piece and swallows its tag and one newline. */
  lemma FenceSplitAtFence(rest: string)
    ensures FenceSplit(Fence + rest) == [""] + FenceSplit(AfterLabel(rest))
  {
    var s := Fence + rest;
    assert s[..3] == Fence;
    assert s[3..] == rest;
  }

  /** A tag made only of letters, followed by a non-letter, is exactly what the fence swallows. */
  lemma {:induction false} LetterRunOfLabel(tag: string, rest: string)
    requires forall i :: 0 <= i < |tag| ==> IsAsciiLetter(tag[i])
    requires rest == [] || !IsAsciiLetter(rest[0])
    ensures LetterRun(tag + rest) == |tag|
  {
    if tag != [] {
      assert (tag + rest)[1..] == tag[1..] + rest;
      LetterRunOfLabel(tag[1..], rest);
    } else {
      assert tag + rest == rest;
    }
  }

  /** `body` without the one newline a fence swallows after its tag. */
  function DropNewline(body: string): (r: string)
    ensures |r| <= |body|
    ensures forall i :: 0 <= i < |r| ==> r[i] == body[i + |body| - |r|]
  {
    if body != [] && body[0] == '\n' then body[1..] else body
  }

  /** A lone fence splits into two empty pieces. */
  lemma FenceSplitOfFence()
    ensures FenceSplit(Fence) == ["", ""]
  {
    FenceSplitAtFence("");
    LetterRunOfLabel("", "");
    assert Fence + "" == Fence;
  }

  /** Text without backticks closed by a fence. */
  lemma FenceSplitOfClosedText(code: string)
    requires NoBacktick(code)
    ensures FenceSplit(code + Fence) == [code, ""]
  {
    FenceSplitOfFence();
    FenceSplitSkipsPlainPrefix(code, Fence);
    var f := FenceSplit(Fence);
    assert f[1..] == [""];
    assert code + f[0] == code;
  }

  /** The opening fence swallows the tag and the newline after it, up to the closing fence. */
  lemma AfterLabelOfTag(tag: string, body: string)
    requires forall i :: 0 <= i < |tag| ==> IsAsciiLetter(tag[i])
    requires body == [] || !IsAsciiLetter(body[0])
    ensures AfterLabel(tag + (body + Fence)) == DropNewline(body) + Fence
  {
    var bt := body + Fence;
    assert bt[0] == if body == [] then '`' else body[0];
    LetterRunOfLabel(tag, bt);
    assert (tag + bt)[|tag|..] == bt;
    if body != [] && body[0] == '\n' {
      assert bt[1..] == body[1..] + Fence;
    }
  }

  lemma Regroup(a: string, b: string, c: string, d: string, e: string)
    ensures a + (b + (c + (d + e))) == a + b + c + d + e
  {
  }

  /** An opening fence with a tag, a body and the closing fence: an empty piece, then the body less its newline. */
  lemma FenceSplitOfLabelledBody(tag: string, body: string)
    requires NoBacktick(body)
    requires forall i :: 0 <= i < |tag| ==> IsAsciiLetter(tag[i])
    requires body == [] || !IsAsciiLetter(body[0])
    ensures FenceSplit(Fence + (tag + (body + Fence))) == ["", DropNewline(body), ""]
  {
    var code := DropNewline(body);
    calc {
      FenceSplit(Fence + (tag + (body + Fence)));
    == { FenceSplitAtFence(tag + (body + Fence)); }
      [""] + FenceSplit(AfterLabel(tag + (body + Fence)));
    == { AfterLabelOfTag(tag, body); }
      [""] + FenceSplit(code + Fence);
    == { assert NoBacktick(code); FenceSplitOfClosedText(code); }
      [""] + [code, ""];
    == { PrependToPair("", code, ""); }
      ["", code, ""];
    }
  }

  lemma PrependToPair<T>(a: T, b: T, c: T)
    ensures [a] + [b, c] == [a, b, c]
  {
  }

  /** The pieces of prose followed by one fenced block whose tag is a run of letters. */
  lemma FencedBlockPieces(prose: string, tag: string, body: string)
    requires NoBacktick(prose) && NoBacktick(body)
    requires forall i :: 0 <= i < |tag| ==> IsAsciiLetter(tag[i])
    requires body == [] || !IsAsciiLetter(body[0])
    ensures FenceSplit(prose + Fence + tag + body + Fence) == [prose, DropNewline(body), ""]
  {
    var fenced := Fence + (tag + (body + Fence));
    assert prose + Fence + tag + body + Fence == prose + fenced by {
      Regroup(prose, Fence, tag, body, Fence);
    }
    var code := DropNewline(body);
    calc {
      FenceSplit(prose + fenced);
    == { FenceSplitSkipsPlainPrefix(prose, fenced); }
      [prose + FenceSplit(fenced)[0]] + FenceSplit(fenced)[1..];
    == { FenceSplitOfLabelledBody(tag, body); }
      [prose + ""] + ["", code, ""][1..];
    == { assert prose + "" == prose; ReplaceHead(prose, "", code, ""); }
      [prose, code, ""];
    }
  }

  lemma ReplaceHead<T>(a: T, b: T, c: T, d: T)
    ensures [a] + [b, c, d][1..] == [a, c, d]
  {
  }

  /**
   * Prose followed by one fenced block gives at most a text block and a code
   * block. The code block loses the tag: with `tag = "print"` and `body =
   * "('hello')"`, the code kept is `('hello')`, not `print('hello')`.
   */
  lemma FencedBlockClassified(prose: string, tag: string, body: string)
    requires NoBacktick(prose) && NoBacktick(body)
    requires forall i :: 0 <= i < |tag| ==> IsAsciiLetter(tag[i])
    requires body == [] || !IsAsciiLetter(body[0])
    ensures Classify(Str(prose + Fence + tag + body + Fence)) ==
      Ok((if Strip(prose) == [] then [] else [Block(TextBlock, Strip(prose))])
         + (if Strip(DropNewline(body)) == [] then [] else [Block(CodeBlock, Strip(DropNewline(body)))]))
  {
    var log := prose + Fence + tag + body + Fence;
    FencedBlockPieces(prose, tag, body);
    var pieces := FenceSplit(log);
    assert CountFences(log) == 2;
    assert ChatLogText(Str(log)) == Ok(log);
    var contents := Stripped(pieces);
    assert Classify(Str(log)) == Ok(ClassifyPieces(contents, 3));
    StrippedAt(pieces, 0);
    StrippedAt(pieces, 1);
    StrippedAt(pieces, 2);
    assert Strip("") == [];
    assert ClassifyPieces(contents, 1) == (if Strip(prose) == [] then [] else [Block(TextBlock, Strip(prose))]);
    assert ClassifyPieces(contents, 3) == ClassifyPieces(contents, 2);
  }

  /** Prose and a fence with no closing fence after it hold exactly one fence. */
  lemma UnterminatedFenceCount(prose: string, rest: string)
    requires NoBacktick(prose) && NoBacktick(rest)
    ensures CountFences(prose + Fence + rest) == 1
  {
    var after := AfterLabel(rest);
    assert NoBacktick(after) by {
      var k := LetterRun(rest);
      forall i | 0 <= i < |after| ensures after[i] != '`' {
        if k < |rest| && rest[k] == '\n' { assert after[i] == rest[k + 1 + i]; } else { assert after[i] == rest[k + i]; }
      }
    }
    FenceSplitSkipsPlainPrefix(after, "");
    assert after + "" == after;
    assert |FenceSplit(after)| == 1;
    FenceSplitAtFence(rest);
    FenceSplitSkipsPlainPrefix(prose, Fence + rest);
    assert prose + (Fence + rest) == prose + Fence + rest;
  }

  /** Such a log is refused as unmatched. */
  lemma UnterminatedFenceRefused(prose: string, rest: string)
    requires NoBacktick(prose) && NoBacktick(rest)
    ensures Classify(Str(prose + Fence + rest)) == Err(ValueError("Unmatched code fence: found 1 backticks."))
  {
    var log := prose + Fence + rest;
    UnterminatedFenceCount(prose, rest);
    assert ChatLogText(Str(log)) == Ok(log);
    assert Classify(Str(log)) == Err(ValueError("Unmatched code fence: found " + NatToString(1) + " backticks."));
    assert NatToString(1) == "1";
    assert "Unmatched code fence: found " + "1" + " backticks." == "Unmatched code fence: found 1 backticks.";
  }
}
