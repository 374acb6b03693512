/** The directive lexer of muFlow (muFlow/muparse.py, class Lexer): a
    character-class state machine that turns one directive line into a
    sequence of tokens, driven by a constant transition table. */
module MuLexer {
  import opened Errors

  /** The four token classes; each carries the text it was built from. */
  datatype Token =
    | Literal(text: string)
    | BrackL(text: string)
    | BrackR(text: string)
    | DestOp(text: string)

  /** Lexer states: inside a plain run, just after a control character, inside quotes. */
  datatype LState = CharS | CtrlS | QuotS

  /** Character classes. */
  datatype CType = Plain | Ctrl | Quote | White | Comnt

  predicate IsWhite(ch: char) { ch == ' ' || ch == '\t' || ch == ',' }
  predicate IsCtrl(ch: char) { ch == '(' || ch == ')' || ch == '>' }
  predicate IsPlain(ch: char) { !IsWhite(ch) && !IsCtrl(ch) && ch != '"' && ch != '#' }

  /** The class of a character; whitespace is tested first, as in the source. */
  function Recognize(ch: char): CType
  {
    if IsWhite(ch) then White
    else if ch == '"' then Quote
    else if IsCtrl(ch) then Ctrl
    else if ch == '#' then Comnt
    else Plain
  }

  /** One entry of the transition table: push the character into the pending
      literal?, flush the pending literal as a token (before pushing)?, and the
      next state (None: a comment ends tokenizing). */
  datatype Rule = Rule(push: bool, flush: bool, next: Option<LState>)

  /** The constant transition table, row by row. */
  function Matrix(st: LState, ct: CType): Rule
  {
    match st
    case CharS =>
      (match ct
       case Plain => Rule(true, false, Some(CharS))
       case Ctrl  => Rule(true, true, Some(CtrlS))
       case Quote => Rule(false, true, Some(QuotS))
       case White => Rule(false, true, Some(CharS))
       case Comnt => Rule(false, true, None))
    case CtrlS =>
      (match ct
       case Plain => Rule(true, true, Some(CharS))
       case Ctrl  => Rule(true, true, Some(CtrlS))
       case Quote => Rule(false, true, Some(QuotS))
       case White => Rule(false, true, Some(CharS))
       case Comnt => Rule(false, true, None))
    case QuotS =>
      (match ct
       case Plain => Rule(true, false, Some(QuotS))
       case Ctrl  => Rule(true, false, Some(QuotS))
       case Quote => Rule(false, true, Some(CharS))
       case White => Rule(true, false, Some(QuotS))
       case Comnt => Rule(true, false, Some(QuotS)))
  }

  /** The token a flushed literal becomes, if any: nothing for the empty
      literal and for a lone comment character, a control token for a text
      that is exactly one control character, a Literal otherwise. */
  function MakeToken(lit: string): (r: Option<Token>)
    ensures r.None? <==> lit == "" || lit == "#"
    ensures r.Some? ==> r.value.text == lit
    ensures r.Some? ==> (r.value.BrackL? <==> lit == "(")
    ensures r.Some? ==> (r.value.BrackR? <==> lit == ")")
    ensures r.Some? ==> (r.value.DestOp? <==> lit == ">")
  {
    if lit == "" then None
    else if lit == "(" then Some(BrackL(lit))
    else if lit == ")" then Some(BrackR(lit))
    else if lit == ">" then Some(DestOp(lit))
    else if lit == "#" then None
    else Some(Literal(lit))
  }

  /** The token list after flushing the pending literal `lit`. */
  function Flush(acc: seq<Token>, lit: string): seq<Token>
  {
    match MakeToken(lit)
    case None => acc
    case Some(t) => acc + [t]
  }

  /** The state machine run on the rest of the line, from state `st` with
      pending literal `lit` and tokens `acc` emitted so far. */
  function Run(st: LState, lit: string, acc: seq<Token>, text: string): seq<Token>
    decreases |text|
  {
    if text == [] then Flush(acc, lit)
    else
      var rule := Matrix(st, Recognize(text[0]));
      var acc1 := if rule.flush then Flush(acc, lit) else acc;
      var lit1 := if rule.flush then "" else lit;
      match rule.next
      case None => Flush(acc1, lit1)
      case Some(st1) => Run(st1, if rule.push then lit1 + [text[0]] else lit1, acc1, text[1..])
  }

  /** The tokens of a whole line. */
  function Tokens(text: string): seq<Token>
  {
    Run(CharS, "", [], text)
  }

  /** The tokenizer object: the token list and the pending literal are
      fields that its methods update in place. */
  class Lexer {
    var tokens: seq<Token>
    var literal: string

    constructor ()
      ensures tokens == [] && literal == ""
    {
      tokens := [];
      literal := "";
    }

    /** Appends one character to the pending literal. */
    method PushChar(ch: char)
      modifies this
      ensures literal == old(literal) + [ch]
      ensures tokens == old(tokens)
    {
      literal := literal + [ch];
    }

    /** Flushes the pending literal: emits the token it stands for, if any,
        and empties it. */
    method PushToken()
      modifies this
      ensures tokens == Flush(old(tokens), old(literal))
      ensures literal == ""
    {
      if literal == "" {
        return;
      }
      if literal == "(" || literal == ")" || literal == ">" {
        var t := if literal == "(" then BrackL(literal)
                 else if literal == ")" then BrackR(literal)
                 else DestOp(literal);
        tokens := tokens + [t];
      } else if literal != "#" {
        tokens := tokens + [Literal(literal)];
      }
      literal := "";
    }

    /** Tokenizes one line; the returned list is the specification's `Tokens`. */
    method Tokenize(text: string) returns (r: seq<Token>)
      modifies this
      ensures r == Tokens(text)
      ensures tokens == r && literal == ""
    {
      tokens := [];
      literal := "";
      var state := CharS;
      var i := 0;
      while i < |text|
        invariant 0 <= i <= |text|
        invariant Run(state, literal, tokens, text[i..]) == Tokens(text)
      {
        assert text[i..][0] == text[i] && text[i..][1..] == text[i + 1..];
        var rule := Matrix(state, Recognize(text[i]));
        if rule.flush {
          PushToken();
        }
        if rule.next.None? {
          break;
        }
        state := rule.next.value;
        if rule.push {
          PushChar(text[i]);
        }
        i := i + 1;
      }
      PushToken();
      r := tokens;
    }
  }

  // ---------------------------------------------------------------------
  // Properties of the tokenizer

  /** No emitted token has empty text. */
  lemma {:induction false} RunNonEmpty(st: LState, lit: string, acc: seq<Token>, text: string)
    requires forall t :: t in acc ==> t.text != ""
    ensures forall t :: t in Run(st, lit, acc, text) ==> t.text != ""
    decreases |text|
  {
    if text != [] {
      var rule := Matrix(st, Recognize(text[0]));
      var acc1 := if rule.flush then Flush(acc, lit) else acc;
      var lit1 := if rule.flush then "" else lit;
      if rule.next.Some? {
        RunNonEmpty(rule.next.value, if rule.push then lit1 + [text[0]] else lit1, acc1, text[1..]);
      }
    }
  }

  lemma TokensNonEmpty(text: string)
    ensures forall t :: t in Tokens(text) ==> t.text != ""
  {
    RunNonEmpty(CharS, "", [], text);
  }

  /** The length of the longest prefix of plain (non-separator) characters. */
  function PlainRun(s: string): (n: nat)
    ensures n <= |s|
    ensures forall k :: 0 <= k < n ==> IsPlain(s[k])
    ensures n < |s| ==> !IsPlain(s[n])
  {
    if s == [] || !IsPlain(s[0]) then 0 else 1 + PlainRun(s[1..])
  }

  /** A line without quotes and comment characters. */
  predicate Bare(s: string) { forall k :: 0 <= k < |s| ==> s[k] != '"' && s[k] != '#' }

  /** The control token of a single control character. */
  function CtrlToken(c: char): Token
  {
    if c == '(' then BrackL([c]) else if c == ')' then BrackR([c]) else DestOp([c])
  }

  /** Reference lexing of a bare line, written independently of the table:
      separators are skipped, each control character is a token of its own,
      and every maximal run of plain characters is one Literal. */
  function LexPlain(s: string): seq<Token>
    requires Bare(s)
    decreases |s|
  {
    if s == [] then []
    else if IsWhite(s[0]) then LexPlain(s[1..])
    else if IsCtrl(s[0]) then [CtrlToken(s[0])] + LexPlain(s[1..])
    else
      var n := PlainRun(s);
      [Literal(s[..n])] + LexPlain(s[n..])
  }

  lemma {:induction false} PlainRunStops(w: string, rest: string)
    requires forall k :: 0 <= k < |w| ==> IsPlain(w[k])
    requires rest == [] || !IsPlain(rest[0])
    ensures PlainRun(w + rest) == |w|
    decreases |w|
  {
    if w != [] {
      assert (w + rest)[1..] == w[1..] + rest;
      PlainRunStops(w[1..], rest);
    } else {
      assert w + rest == rest;
    }
  }

  /** A plain word followed by the end, a separator or a control character
      lexes to that word and then the rest. */
  lemma LexPlainWord(w: string, rest: string)
    requires w != [] && forall k :: 0 <= k < |w| ==> IsPlain(w[k])
    requires Bare(rest) && (rest == [] || !IsPlain(rest[0]))
    ensures Bare(w + rest)
    ensures LexPlain(w + rest) == [Literal(w)] + LexPlain(rest)
  {
    var s := w + rest;
    assert Bare(s) by {
      forall k | 0 <= k < |s| ensures s[k] != '"' && s[k] != '#' {
        if k < |w| { assert s[k] == w[k]; } else { assert s[k] == rest[k - |w|]; }
      }
    }
    PlainRunStops(w, rest);
    assert s[0] == w[0];
    assert s[..|w|] == w && s[|w|..] == rest;
  }

  lemma BareAppend(a: string, b: string)
    requires Bare(a) && Bare(b)
    ensures Bare(a + b)
  {
    forall k | 0 <= k < |a + b| ensures (a + b)[k] != '"' && (a + b)[k] != '#' {
      if k < |a| { assert (a + b)[k] == a[k]; } else { assert (a + b)[k] == b[k - |a|]; }
    }
  }

  lemma BareTail(s: string, n: nat)
    requires Bare(s) && n <= |s|
    ensures Bare(s[n..])
  {
    forall k | 0 <= k < |s[n..]| ensures s[n..][k] != '"' && s[n..][k] != '#' {
      assert s[n..][k] == s[k + n];
    }
  }

  /** Running from the plain state with a pending plain word. */
  lemma {:induction false} RunBareChar(lit: string, acc: seq<Token>, text: string)
    requires Bare(text) && forall k :: 0 <= k < |lit| ==> IsPlain(lit[k])
    ensures Bare(lit + text)
    ensures Run(CharS, lit, acc, text) == acc + LexPlain(lit + text)
    decreases |text|, 2
  {
    BareAppend(lit, text);
    if text == [] {
      RunBareEnd(lit, acc);
      assert lit + text == lit;
    } else if IsPlain(text[0]) {
      BareTail(text, 1);
      RunBareChar(lit + [text[0]], acc, text[1..]);
      assert (lit + [text[0]]) + text[1..] == lit + text;
    } else {
      PlainToken(lit);
      RunBareBreak(lit, acc, text);
    }
  }

  /** A pending plain word is a Literal. */
  lemma PlainToken(lit: string)
    requires forall k :: 0 <= k < |lit| ==> IsPlain(lit[k])
    ensures lit != [] ==> MakeToken(lit) == Some(Literal(lit))
  {
    if lit != [] {
      assert lit[0] != '(' && lit[0] != ')' && lit[0] != '>' && lit[0] != '#';
    }
  }

  /** The end of the line flushes the pending plain word. */
  lemma RunBareEnd(lit: string, acc: seq<Token>)
    requires forall k :: 0 <= k < |lit| ==> IsPlain(lit[k])
    ensures Bare(lit)
    ensures Run(CharS, lit, acc, []) == acc + LexPlain(lit)
  {
    PlainToken(lit);
    if lit != [] {
      LexPlainWord(lit, []);
      assert lit + [] == lit;
    }
  }

  /** Running from the literal state onto a character that ends the literal. */
  lemma {:induction false} RunBareBreak(lit: string, acc: seq<Token>, text: string)
    requires Bare(text) && text != [] && !IsPlain(text[0])
    requires forall k :: 0 <= k < |lit| ==> IsPlain(lit[k])
    requires lit != [] ==> MakeToken(lit) == Some(Literal(lit))
    requires Bare(lit + text)
    ensures Run(CharS, lit, acc, text) == acc + LexPlain(lit + text)
    decreases |text|, 1
  {
    if lit == [] {
      assert lit + text == text;
    } else {
      LexPlainWord(lit, text);
      FlushLiteral(acc, lit, LexPlain(text));
    }
    if IsWhite(text[0]) {
      RunBareWhite(Flush(acc, lit), text);
      assert Run(CharS, lit, acc, text) == Run(CharS, "", Flush(acc, lit), text[1..]);
    } else {
      RunBareOp(Flush(acc, lit), text);
      assert Run(CharS, lit, acc, text) == Run(CtrlS, [text[0]], Flush(acc, lit), text[1..]);
    }
  }

  /** Flushing a pending Literal puts its token ahead of whatever follows. */
  lemma FlushLiteral(acc: seq<Token>, lit: string, tail: seq<Token>)
    requires MakeToken(lit) == Some(Literal(lit))
    ensures Flush(acc, lit) + tail == acc + ([Literal(lit)] + tail)
  {
    assert Flush(acc, lit) == acc + [Literal(lit)];
  }

  /** A separator after the flushed literal is skipped. */
  lemma {:induction false} RunBareWhite(acc: seq<Token>, text: string)
    requires Bare(text) && text != [] && IsWhite(text[0])
    ensures Run(CharS, "", acc, text[1..]) == acc + LexPlain(text)
    decreases |text|, 0
  {
    BareTail(text, 1);
    RunBareChar("", acc, text[1..]);
    assert "" + text[1..] == text[1..];
  }

  /** A control character after the flushed literal starts a token of its own. */
  lemma {:induction false} RunBareOp(acc: seq<Token>, text: string)
    requires Bare(text) && text != [] && IsCtrl(text[0])
    ensures Run(CtrlS, [text[0]], acc, text[1..]) == acc + LexPlain(text)
    decreases |text|, 0
  {
    BareTail(text, 1);
    assert LexPlain(text) == [CtrlToken(text[0])] + LexPlain(text[1..]);
    RunBareCtrl(text[0], acc, text[1..]);
  }

  /** Running from the control state, the pending literal being the control character. */
  lemma {:induction false} RunBareCtrl(c: char, acc: seq<Token>, text: string)
    requires Bare(text) && IsCtrl(c)
    ensures Run(CtrlS, [c], acc, text) == acc + [CtrlToken(c)] + LexPlain(text)
    decreases |text|, 0
  {
    assert MakeToken([c]) == Some(CtrlToken(c));
    assert Flush(acc, [c]) == acc + [CtrlToken(c)];
    if text != [] {
      var ch := text[0];
      BareTail(text, 1);
      if IsPlain(ch) {
        RunBareChar([ch], acc + [CtrlToken(c)], text[1..]);
        assert [ch] + text[1..] == text && "" + [ch] == [ch];
      } else if IsWhite(ch) {
        RunBareChar("", acc + [CtrlToken(c)], text[1..]);
        assert "" + text[1..] == text[1..];
      } else {
        assert IsCtrl(ch) && !IsWhite(ch);
        assert LexPlain(text) == [CtrlToken(ch)] + LexPlain(text[1..]);
        RunBareCtrl(ch, acc + [CtrlToken(c)], text[1..]);
      }
    }
  }

  /** A line with no quotes and no comment character lexes to its maximal
      plain runs and its control characters, in order. */
  lemma PlainTokens(text: string)
    requires Bare(text)
    ensures Tokens(text) == LexPlain(text)
  {
    RunBareChar("", [], text);
    assert "" + text == text;
  }

  /** Without control characters as well, every token is a Literal. */
  lemma {:induction false} LexPlainLiterals(s: string)
    requires Bare(s) && forall k :: 0 <= k < |s| ==> !IsCtrl(s[k])
    ensures forall i :: 0 <= i < |LexPlain(s)| ==> LexPlain(s)[i].Literal?
    decreases |s|
  {
    if s != [] {
      var n := if IsWhite(s[0]) then 1 else PlainRun(s);
      assert Bare(s[n..]) && forall k :: 0 <= k < |s[n..]| ==> !IsCtrl(s[n..][k]) by {
        forall k | 0 <= k < |s[n..]| ensures s[n..][k] == s[k + n] { }
      }
      LexPlainLiterals(s[n..]);
    }
  }

  /** The state the lexer is in after consuming `text` from `st`; None once a
      comment character has stopped it. */
  function StateAfter(st: LState, text: string): Option<LState>
    decreases |text|
  {
    if text == [] then Some(st)
    else
      var rule := Matrix(st, Recognize(text[0]));
      match rule.next
      case None => None
      case Some(st1) => StateAfter(st1, text[1..])
  }

  lemma {:induction false} RunComment(st: LState, lit: string, acc: seq<Token>, pre: string, post: string)
    requires StateAfter(st, pre) != Some(QuotS)
    ensures Run(st, lit, acc, pre + "#" + post) == Run(st, lit, acc, pre)
    decreases |pre|
  {
    var s := pre + "#" + post;
    if pre == [] {
      assert s[0] == '#' && Flush(acc, lit) == Flush(Flush(acc, lit), "");
    } else {
      assert s[0] == pre[0] && s[1..] == pre[1..] + "#" + post;
      var rule := Matrix(st, Recognize(pre[0]));
      var acc1 := if rule.flush then Flush(acc, lit) else acc;
      var lit1 := if rule.flush then "" else lit;
      if rule.next.Some? {
        RunComment(rule.next.value, if rule.push then lit1 + [pre[0]] else lit1, acc1, pre[1..], post);
      }
    }
  }

  /** A comment character outside quotes ends the line: nothing after it
      contributes a token. */
  lemma CommentStops(pre: string, post: string)
    requires StateAfter(CharS, pre) != Some(QuotS)
    ensures Tokens(pre + "#" + post) == Tokens(pre)
  {
    RunComment(CharS, "", [], pre, post);
  }

  /** Inside quotes every character but the quote itself is accumulated
      verbatim; the closing quote flushes the literal and returns to the
      plain state. */
  lemma {:induction false} QuotedVerbatim(lit: string, acc: seq<Token>, q: string, rest: string)
    requires forall k :: 0 <= k < |q| ==> q[k] != '"'
    ensures Run(QuotS, lit, acc, q + "\"" + rest) == Run(CharS, "", Flush(acc, lit + q), rest)
    decreases |q|
  {
    var s := q + "\"" + rest;
    if q == [] {
      assert s[0] == '"' && s[1..] == rest && lit + q == lit;
    } else {
      assert s[0] == q[0] && s[1..] == q[1..] + "\"" + rest;
      assert Recognize(q[0]) != Quote;
      QuotedVerbatim(lit + [q[0]], acc, q[1..], rest);
      assert lit + [q[0]] + q[1..] == lit + q;
    }
  }

  /** A quoted string outside quotes becomes exactly the token its contents
      flush to: the pending literal is flushed first, the quote characters
      are never part of a token, and `""` yields no token at all. */
  lemma QuotedToken(st: LState, lit: string, acc: seq<Token>, q: string, rest: string)
    requires st != QuotS
    requires forall k :: 0 <= k < |q| ==> q[k] != '"'
    ensures Run(st, lit, acc, "\"" + q + "\"" + rest) == Run(CharS, "", Flush(Flush(acc, lit), q), rest)
  {
    var s := "\"" + q + "\"" + rest;
    assert s[0] == '"' && s[1..] == q + "\"" + rest;
    QuotedVerbatim("", Flush(acc, lit), q, rest);
    assert "" + q == q;
  }

  /** An unterminated quote runs to the end of the line and is flushed there. */
  lemma {:induction false} QuoteUnclosed(lit: string, acc: seq<Token>, q: string)
    requires forall k :: 0 <= k < |q| ==> q[k] != '"'
    ensures Run(QuotS, lit, acc, q) == Flush(acc, lit + q)
    decreases |q|
  {
    if q == [] {
      assert lit + q == lit;
    } else {
      assert Recognize(q[0]) != Quote;
      QuoteUnclosed(lit + [q[0]], acc, q[1..]);
      assert lit + [q[0]] + q[1..] == lit + q;
    }
  }
}
