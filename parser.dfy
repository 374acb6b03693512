/** The directive parser of muFlow (muFlow/muparse.py, class Parser): a
    token-type state machine that fills the call record
    {name, args, dest, params} of one directive line. */
module MuParser {
  import opened Errors
  import opened MuLexer

  /** Parser states: scanning for the name, for an IO group or parameters,
      inside the input part, inside the output part, among the parameters. */
  datatype PState = Name | IoOrParam | Input | Output | Param

  /** The call record a directive line parses to. */
  datatype Call = Call(name: string, args: seq<string>, dest: seq<string>, params: seq<string>)

  const EmptyCall := Call("", [], [], [])

  /** The record field a token's text is stored into. */
  datatype Field = NameF | ArgsF | DestF | ParamsF

  /** One entry of a state's row: where the token text goes (None: nowhere)
      and the next state. */
  datatype Entry = Entry(key: Option<Field>, next: PState)

  /** The constant transition table; None where a token type is absent from
      the state's row. */
  function Row(st: PState, t: Token): Option<Entry>
  {
    match st
    case Name =>
      if t.Literal? then Some(Entry(Some(NameF), IoOrParam)) else None
    case IoOrParam =>
      if t.BrackL? then Some(Entry(None, Input))
      else if t.Literal? then Some(Entry(Some(ParamsF), Param))
      else None
    case Input =>
      if t.Literal? then Some(Entry(Some(ArgsF), Input))
      else if t.DestOp? then Some(Entry(None, Output))
      else if t.BrackR? then Some(Entry(None, Param))
      else None
    case Output =>
      if t.Literal? then Some(Entry(Some(DestF), Output))
      else if t.BrackR? then Some(Entry(None, Param))
      else None
    case Param =>
      if t.Literal? then Some(Entry(Some(ParamsF), Param)) else None
  }

  /** Stores a token text: the name is overwritten, the lists are appended to. */
  function Store(c: Call, key: Option<Field>, text: string): Call
  {
    match key
    case None => c
    case Some(NameF) => c.(name := text)
    case Some(ArgsF) => c.(args := c.args + [text])
    case Some(DestF) => c.(dest := c.dest + [text])
    case Some(ParamsF) => c.(params := c.params + [text])
  }

  /** The state machine run over the remaining tokens. There is no
      end-of-input check: running out of tokens in any state succeeds. A
      token the state does not list is a `Runtime` error: the exception is
      built with its message alone, where its constructor also needs the
      token and the state, so the raise is a TypeError. */
  function Parse(st: PState, c: Call, toks: seq<Token>): Result<Call>
    decreases |toks|
  {
    if toks == [] then Ok(c)
    else
      match Row(st, toks[0])
      case None => Err(Runtime)
      case Some(e) => Parse(e.next, Store(c, e.key, toks[0].text), toks[1..])
  }

  function ParseAll(toks: seq<Token>): Result<Call>
  {
    Parse(Name, EmptyCall, toks)
  }

  class Parser {
    const lexer: Lexer

    constructor ()
      ensures fresh(lexer)
    {
      lexer := new Lexer();
    }

    /** Tokenizes and parses one line. */
    method ParseText(text: string) returns (r: Result<Call>)
      modifies lexer
      ensures r == ParseAll(Tokens(text))
    {
      var toks := lexer.Tokenize(text);
      r := ParseTokens(toks);
    }

    /** Runs the token-type state machine; fails on the first token whose
        type is absent from the current state's row. */
    method ParseTokens(tokens: seq<Token>) returns (r: Result<Call>)
      ensures r == ParseAll(tokens)
    {
      var state := Name;
      var parsed := EmptyCall;
      var i := 0;
      while i < |tokens|
        invariant 0 <= i <= |tokens|
        invariant Parse(state, parsed, tokens[i..]) == ParseAll(tokens)
      {
        assert tokens[i..][0] == tokens[i] && tokens[i..][1..] == tokens[i + 1..];
        var token := tokens[i];
        var rule := Row(state, token);
        if rule.None? {
          return Err(Runtime);
        }
        var e := rule.value;
        state := e.next;
        if e.key.Some? {
          if e.key.value == NameF {
            parsed := parsed.(name := token.text);
          } else if e.key.value == ArgsF {
            parsed := parsed.(args := parsed.args + [token.text]);
          } else if e.key.value == DestF {
            parsed := parsed.(dest := parsed.dest + [token.text]);
          } else {
            parsed := parsed.(params := parsed.params + [token.text]);
          }
        }
        i := i + 1;
      }
      r := Ok(parsed);
    }
  }

  // ---------------------------------------------------------------------
  // Properties of the parser

  /** The texts of the Literal tokens, in order. */
  function LiteralTexts(toks: seq<Token>): seq<string>
  {
    if toks == [] then []
    else (if toks[0].Literal? then [toks[0].text] else []) + LiteralTexts(toks[1..])
  }

  /** The record's texts in field order. */
  function Flat(c: Call): seq<string> { [c.name] + c.args + c.dest + c.params }

  /** Which fields can still be empty in each state. */
  predicate Shape(st: PState, c: Call)
  {
    match st
    case Name => c == EmptyCall
    case IoOrParam => c.dest == [] && c.params == []
    case Input => c.dest == [] && c.params == []
    case Output => c.params == []
    case Param => true
  }

  /** One table step outside the Name state keeps the shape and appends the
      token's text, if it is a Literal, at the end of the record's texts. */
  lemma StepFlat(st: PState, c: Call, t: Token)
    requires st != Name && Shape(st, c) && Row(st, t).Some?
    ensures var e := Row(st, t).value; var c1 := Store(c, e.key, t.text);
      e.next != Name && Shape(e.next, c1) && c1.name == c.name &&
      Flat(c1) == Flat(c) + (if t.Literal? then [t.text] else [])
  {
  }

  lemma {:induction false} ParseFlat(st: PState, c: Call, toks: seq<Token>)
    requires st != Name && Shape(st, c) && Parse(st, c, toks).Ok?
    ensures Parse(st, c, toks).value.name == c.name
    ensures Flat(Parse(st, c, toks).value) == Flat(c) + LiteralTexts(toks)
    decreases |toks|
  {
    if toks != [] {
      var e := Row(st, toks[0]).value;
      var c1 := Store(c, e.key, toks[0].text);
      assert Parse(st, c, toks) == Parse(e.next, c1, toks[1..]);
      StepFlat(st, c, toks[0]);
      ParseFlat(e.next, c1, toks[1..]);
      var head := if toks[0].Literal? then [toks[0].text] else [];
      assert LiteralTexts(toks) == head + LiteralTexts(toks[1..]);
      assert Flat(c) + head + LiteralTexts(toks[1..]) == Flat(c) + LiteralTexts(toks);
    }
  }

  /** On success: the empty token list gives the empty record; otherwise the
      name is the first token, which is a Literal, and the record holds the
      Literal texts in token order, name first, then args, dest and params. */
  lemma ParseRecord(toks: seq<Token>)
    requires ParseAll(toks).Ok?
    ensures toks == [] ==> ParseAll(toks).value == EmptyCall
    ensures toks != [] ==> toks[0].Literal? && ParseAll(toks).value.name == toks[0].text
    ensures toks != [] ==> LiteralTexts(toks) == Flat(ParseAll(toks).value)
  {
    if toks != [] {
      var c1 := Call(toks[0].text, [], [], []);
      ParseFlat(IoOrParam, c1, toks[1..]);
    }
  }

  /** For a lexed line the name is non-empty exactly when there were tokens,
      so the Literal tokens number exactly what the record holds. */
  lemma ParseTextCount(text: string)
    requires ParseAll(Tokens(text)).Ok?
    ensures var c := ParseAll(Tokens(text)).value;
      |LiteralTexts(Tokens(text))| == (if c.name != "" then 1 else 0) + |c.args| + |c.dest| + |c.params|
  {
    var toks := Tokens(text);
    TokensNonEmpty(text);
    ParseRecord(toks);
    if toks != [] {
      assert toks[0] in toks;
    }
  }

  // The accepted language, stated independently of the table.

  /** The index of the first non-Literal token (|t| when there is none). */
  function FirstNonLit(t: seq<Token>): (k: nat)
    ensures k <= |t|
    ensures forall i :: 0 <= i < k ==> t[i].Literal?
    ensures k < |t| ==> !t[k].Literal?
  {
    if t == [] || !t[0].Literal? then 0 else 1 + FirstNonLit(t[1..])
  }

  predicate AllLit(t: seq<Token>) { forall i :: 0 <= i < |t| ==> t[i].Literal? }

  /** After `>`: words, then optionally `)` and words. */
  predicate OutputOk(t: seq<Token>)
  {
    var k := FirstNonLit(t);
    k == |t| || (t[k].BrackR? && AllLit(t[k + 1..]))
  }

  /** After `(`: words, then optionally `)` and words, or `>` and an output part. */
  predicate InputOk(t: seq<Token>)
  {
    var k := FirstNonLit(t);
    k == |t| || (t[k].BrackR? && AllLit(t[k + 1..])) || (t[k].DestOp? && OutputOk(t[k + 1..]))
  }

  /** After the name: nothing, words, or `(` and an input part. */
  predicate IoOk(t: seq<Token>)
  {
    t == [] || (t[0].Literal? && AllLit(t)) || (t[0].BrackL? && InputOk(t[1..]))
  }

  /** name [ '(' words [ '>' words ] [ ')' words ] ] | name words | nothing;
      every prefix of a directive is accepted. */
  predicate Accepted(t: seq<Token>)
  {
    t == [] || (t[0].Literal? && IoOk(t[1..]))
  }

  lemma {:induction false} ParamIff(c: Call, t: seq<Token>)
    ensures Parse(Param, c, t).Ok? <==> AllLit(t)
    decreases |t|
  {
    if t != [] {
      if t[0].Literal? {
        ParamIff(Store(c, Some(ParamsF), t[0].text), t[1..]);
        assert AllLit(t) <==> AllLit(t[1..]) by {
          if AllLit(t[1..]) {
            forall i | 0 <= i < |t| ensures t[i].Literal? { if i > 0 { assert t[i] == t[1..][i - 1]; } }
          }
        }
      }
    }
  }

  lemma FirstNonLitTail(t: seq<Token>)
    requires t != [] && t[0].Literal?
    ensures FirstNonLit(t) == 1 + FirstNonLit(t[1..])
    ensures FirstNonLit(t) < |t| ==> t[FirstNonLit(t)] == t[1..][FirstNonLit(t[1..])]
    ensures FirstNonLit(t) < |t| ==> t[FirstNonLit(t) + 1..] == t[1..][FirstNonLit(t[1..]) + 1..]
  {
  }

  lemma {:induction false} OutputIff(c: Call, t: seq<Token>)
    ensures Parse(Output, c, t).Ok? <==> OutputOk(t)
    decreases |t|
  {
    if t != [] {
      if t[0].Literal? {
        OutputIff(Store(c, Some(DestF), t[0].text), t[1..]);
        FirstNonLitTail(t);
      } else if t[0].BrackR? {
        ParamIff(c, t[1..]);
      }
    }
  }

  lemma {:induction false} InputIff(c: Call, t: seq<Token>)
    ensures Parse(Input, c, t).Ok? <==> InputOk(t)
    decreases |t|
  {
    if t != [] {
      if t[0].Literal? {
        InputIff(Store(c, Some(ArgsF), t[0].text), t[1..]);
        FirstNonLitTail(t);
      } else if t[0].BrackR? {
        ParamIff(c, t[1..]);
      } else if t[0].DestOp? {
        OutputIff(c, t[1..]);
      }
    }
  }

  /** Parsing fails exactly on the token lists outside the accepted language. */
  lemma ParseOkIff(toks: seq<Token>)
    ensures ParseAll(toks).Ok? <==> Accepted(toks)
  {
    if toks != [] && toks[0].Literal? {
      var c1 := Call(toks[0].text, [], [], []);
      var t := toks[1..];
      assert ParseAll(toks) == Parse(IoOrParam, c1, t);
      assert Accepted(toks) <==> IoOk(t);
      if t != [] {
        if t[0].Literal? {
          ParamIff(Store(c1, Some(ParamsF), t[0].text), t[1..]);
          assert AllLit(t) <==> AllLit(t[1..]) by {
            if AllLit(t[1..]) {
              forall i | 0 <= i < |t| ensures t[i].Literal? { if i > 0 { assert t[i] == t[1..][i - 1]; } }
            }
          }
        } else if t[0].BrackL? {
          InputIff(c1, t[1..]);
        }
      }
    }
  }

  // Concrete directive shapes

  /** Literal tokens for a list of words. */
  function Lits(ws: seq<string>): (r: seq<Token>)
    ensures |r| == |ws| && AllLit(r)
  {
    if ws == [] then [] else [Literal(ws[0])] + Lits(ws[1..])
  }

  /** The field the words of a list-collecting state go to. */
  function AppendWords(st: PState, c: Call, ws: seq<string>): Call
  {
    match st
    case Input => c.(args := c.args + ws)
    case Output => c.(dest := c.dest + ws)
    case Param => c.(params := c.params + ws)
    case _ => c
  }

  lemma ParseCons(st: PState, c: Call, t: Token, rest: seq<Token>)
    ensures Parse(st, c, [t] + rest) ==
      (match Row(st, t) case None => Err(Runtime) case Some(e) => Parse(e.next, Store(c, e.key, t.text), rest))
  {
    assert ([t] + rest)[0] == t && ([t] + rest)[1..] == rest;
  }

  lemma LitsCons(ws: seq<string>, rest: seq<Token>)
    requires ws != []
    ensures Lits(ws) + rest == [Literal(ws[0])] + (Lits(ws[1..]) + rest)
  {
  }

  /** A word in a list-collecting state is stored and the state kept. */
  lemma ParseLit(st: PState, c: Call, w: string, rest: seq<Token>)
    requires st == Input || st == Output || st == Param
    ensures Row(st, Literal(w)).Some? && Row(st, Literal(w)).value.next == st
    ensures Parse(st, c, [Literal(w)] + rest) == Parse(st, Store(c, Row(st, Literal(w)).value.key, w), rest)
  {
    assert ([Literal(w)] + rest)[0] == Literal(w) && ([Literal(w)] + rest)[1..] == rest;
  }

  lemma {:induction false} ParseLits(st: PState, c: Call, ws: seq<string>, rest: seq<Token>)
    requires st == Input || st == Output || st == Param
    ensures Parse(st, c, Lits(ws) + rest) == Parse(st, AppendWords(st, c, ws), rest)
    decreases |ws|
  {
    if ws == [] {
      assert Lits(ws) + rest == rest;
      assert AppendWords(st, c, ws) == c;
    } else {
      LitsCons(ws, rest);
      ParseLit(st, c, ws[0], Lits(ws[1..]) + rest);
      var c1 := Store(c, Row(st, Literal(ws[0])).value.key, ws[0]);
      ParseLits(st, c1, ws[1..], rest);
      AppendWordsCons(st, c, ws);
    }
  }

  /** Storing the first word, then appending the rest, appends them all. */
  lemma AppendWordsCons(st: PState, c: Call, ws: seq<string>)
    requires (st == Input || st == Output || st == Param) && ws != []
    ensures AppendWords(st, Store(c, Row(st, Literal(ws[0])).value.key, ws[0]), ws[1..]) == AppendWords(st, c, ws)
  {
    var w := ws[0];
    assert [w] + ws[1..] == ws;
    match st {
      case Input => assert c.args + [w] + ws[1..] == c.args + ws;
      case Output => assert c.dest + [w] + ws[1..] == c.dest + ws;
      case Param => assert c.params + [w] + ws[1..] == c.params + ws;
    }
  }

  /** A name and an opening bracket lead to the input part. */
  lemma ParseOpen(n: string, rest: seq<Token>)
    ensures ParseAll([Literal(n)] + ([BrackL("(")] + rest)) == Parse(Input, Call(n, [], [], []), rest)
  {
    ParseCons(Name, EmptyCall, Literal(n), [BrackL("(")] + rest);
    ParseCons(IoOrParam, Call(n, [], [], []), BrackL("("), rest);
  }

  /** A closing bracket after the input or output part leads to the
      parameters. */
  lemma ParseClose(st: PState, c: Call, p: seq<string>)
    requires st == Input || st == Output
    ensures Parse(st, c, [BrackR(")")] + Lits(p)) == Ok(c.(params := c.params + p))
  {
    ParseCons(st, c, BrackR(")"), Lits(p));
    ParseLits(Param, c, p, []);
    assert Lits(p) + [] == Lits(p);
  }

  /** `name p1 .. pn` */
  lemma ParseNameParams(n: string, p: seq<string>)
    ensures ParseAll([Literal(n)] + Lits(p)) == Ok(Call(n, [], [], p))
  {
    ParseCons(Name, EmptyCall, Literal(n), Lits(p));
    var c1 := Call(n, [], [], []);
    if p == [] {
      assert Lits(p) == [];
    } else {
      assert Lits(p) == [Literal(p[0])] + Lits(p[1..]);
      var c2 := c1.(params := [p[0]]);
      assert Store(c1, Some(ParamsF), p[0]) == c2 by { assert c1.params + [p[0]] == [p[0]]; }
      ParseCons(IoOrParam, c1, Literal(p[0]), Lits(p[1..]));
      ParseLits(Param, c2, p[1..], []);
      assert Lits(p[1..]) + [] == Lits(p[1..]);
      assert AppendWords(Param, c2, p[1..]) == Call(n, [], [], p) by { assert [p[0]] + p[1..] == p; }
    }
  }

  lemma Assoc(x: seq<Token>, y: seq<Token>, z: seq<Token>)
    ensures (x + y) + z == x + (y + z)
  {
  }

  /** The tokens of a full directive, grouped from the right. */
  lemma Regroup(t1: Token, t2: Token, a: seq<Token>, t3: Token, d: seq<Token>, tail: seq<Token>)
    ensures [t1, t2] + a + [t3] + d + tail == [t1] + ([t2] + (a + ([t3] + (d + tail))))
  {
    assert [t1, t2] == [t1] + [t2];
    Assoc([t1], [t2], a);
    Assoc([t1] + ([t2] + a), [t3], d);
    Assoc([t1] + ([t2] + a), [t3] + d, tail);
    Assoc([t1], [t2] + a, ([t3] + d) + tail);
    Assoc([t2], a, ([t3] + d) + tail);
    Assoc([t3], d, tail);
  }

  /** `name ( a1 .. > d1 .. ) p1 ..` */
  lemma ParseFull(n: string, a: seq<string>, d: seq<string>, p: seq<string>)
    ensures ParseAll([Literal(n), BrackL("(")] + Lits(a) + [DestOp(">")] + Lits(d) + [BrackR(")")] + Lits(p))
         == Ok(Call(n, a, d, p))
  {
    var rest2 := [DestOp(">")] + (Lits(d) + ([BrackR(")")] + Lits(p)));
    var toks := [Literal(n), BrackL("(")] + Lits(a) + [DestOp(">")] + Lits(d) + [BrackR(")")] + Lits(p);
    Regroup(Literal(n), BrackL("("), Lits(a), DestOp(">"), Lits(d), [BrackR(")")] + Lits(p));
    assert toks == [Literal(n)] + ([BrackL("(")] + (Lits(a) + rest2));
    ParseOpen(n, Lits(a) + rest2);
    ParseLits(Input, Call(n, [], [], []), a, rest2);
    assert AppendWords(Input, Call(n, [], [], []), a) == Call(n, a, [], []);
    ParseOutputs(Call(n, a, [], []), d, p);
  }

  /** `> d1 .. ) p1 ..` after the input part. */
  lemma ParseOutputs(c: Call, d: seq<string>, p: seq<string>)
    requires c.dest == [] && c.params == []
    ensures Parse(Input, c, [DestOp(">")] + (Lits(d) + ([BrackR(")")] + Lits(p)))) == Ok(c.(dest := d, params := p))
  {
    var rest3 := [BrackR(")")] + Lits(p);
    ParseCons(Input, c, DestOp(">"), Lits(d) + rest3);
    ParseLits(Output, c, d, rest3);
    assert AppendWords(Output, c, d) == c.(dest := d);
    ParseClose(Output, c.(dest := d), p);
    assert c.params + p == p;
  }

  /** `name ( a1 .. ) p1 ..` */
  lemma ParseInputsOnly(n: string, a: seq<string>, p: seq<string>)
    ensures ParseAll([Literal(n), BrackL("(")] + Lits(a) + [BrackR(")")] + Lits(p)) == Ok(Call(n, a, [], p))
  {
    var rest2 := [BrackR(")")] + Lits(p);
    var toks := [Literal(n), BrackL("(")] + Lits(a) + [BrackR(")")] + Lits(p);
    Regroup(Literal(n), BrackL("("), Lits(a), BrackR(")"), Lits(p), []);
    assert toks + [] == toks && Lits(p) + [] == Lits(p);
    assert toks == [Literal(n)] + ([BrackL("(")] + (Lits(a) + rest2));
    var c2 := Call(n, a, [], []);
    ParseOpen(n, Lits(a) + rest2);
    ParseLits(Input, Call(n, [], [], []), a, rest2);
    assert AppendWords(Input, Call(n, [], [], []), a) == c2;
    ParseClose(Input, c2, p);
    assert c2.params + p == p;
  }


  /** `name ( a1 ..` without a closing bracket is accepted: there is no
      end-of-input check. */
  lemma ParseUnclosed(n: string, a: seq<string>)
    ensures ParseAll([Literal(n), BrackL("(")] + Lits(a)) == Ok(Call(n, a, [], []))
  {
    var toks := [Literal(n), BrackL("(")] + Lits(a);
    assert toks == [Literal(n)] + ([BrackL("(")] + Lits(a));
    var c1 := Call(n, [], [], []);
    calc {
      ParseAll(toks);
      { ParseOpen(n, Lits(a)); }
      Parse(Input, c1, Lits(a));
      { ParseLits(Input, c1, a, []); assert Lits(a) + [] == Lits(a); assert AppendWords(Input, c1, a) == Call(n, a, [], []); }
      Parse(Input, Call(n, a, [], []), []);
    }
  }

  /** `>` outside brackets is a syntax error. */
  lemma DestOpOutsideBrackets(n: string, p: seq<string>, x: string, rest: seq<Token>)
    ensures ParseAll([Literal(n)] + Lits(p) + [DestOp(x)] + rest).Err?
  {
    var tail := [DestOp(x)] + rest;
    var toks := [Literal(n)] + Lits(p) + [DestOp(x)] + rest;
    assert toks == [Literal(n)] + (Lits(p) + tail);
    var c1 := Call(n, [], [], []);
    ParseCons(Name, EmptyCall, Literal(n), Lits(p) + tail);
    assert ParseAll(toks) == Parse(IoOrParam, c1, Lits(p) + tail);
    if p == [] {
      assert Lits(p) + tail == [DestOp(x)] + rest;
      ParseCons(IoOrParam, c1, DestOp(x), rest);
    } else {
      assert Lits(p) + tail == [Literal(p[0])] + (Lits(p[1..]) + tail);
      ParseCons(IoOrParam, c1, Literal(p[0]), Lits(p[1..]) + tail);
      var c2 := c1.(params := [p[0]]);
      assert Store(c1, Some(ParamsF), p[0]) == c2 by { assert c1.params + [p[0]] == [p[0]]; }
      ParseLits(Param, c2, p[1..], tail);
      ParseCons(Param, AppendWords(Param, c2, p[1..]), DestOp(x), rest);
    }
  }

  /** After `( .. )` and the parameters, only Literals may follow: a second
      bracket group, a second `)` or a `>` is a syntax error. */
  lemma AfterGroupOnlyParams(n: string, a: seq<string>, p: seq<string>, t: Token, rest: seq<Token>)
    requires !t.Literal?
    ensures ParseAll([Literal(n), BrackL("(")] + Lits(a) + [BrackR(")")] + Lits(p) + [t] + rest).Err?
  {
    var tail := [t] + rest;
    var rest2 := [BrackR(")")] + (Lits(p) + tail);
    var toks := [Literal(n), BrackL("(")] + Lits(a) + [BrackR(")")] + Lits(p) + [t] + rest;
    Assoc([Literal(n), BrackL("(")] + Lits(a) + [BrackR(")")] + Lits(p), [t], rest);
    Regroup(Literal(n), BrackL("("), Lits(a), BrackR(")"), Lits(p), tail);
    assert toks == [Literal(n)] + ([BrackL("(")] + (Lits(a) + rest2));
    var c2 := Call(n, a, [], []);
    ParseOpen(n, Lits(a) + rest2);
    ParseLits(Input, Call(n, [], [], []), a, rest2);
    assert AppendWords(Input, Call(n, [], [], []), a) == c2;
    ParseCons(Input, c2, BrackR(")"), Lits(p) + tail);
    ParseLits(Param, c2, p, tail);
    ParseCons(Param, AppendWords(Param, c2, p), t, rest);
  }

}
