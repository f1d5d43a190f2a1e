/** Operator expressions in lparser.c: one loop driven by a table of priorities, and a printer
    that it undoes. */
module Subexpr {
  import opened Basics
  import opened Limits

  datatype Unop = NOT | MINUS | LEN

  datatype Binop = ADD | SUB | MUL | DIV | MOD | POW | CONCAT | NE | EQ | LT | LE | GT | GE | AND | OR

  // A tree; what is written as one token or in its own brackets is an atom.
  datatype Expr = Atom(id: nat) | Un(uop: Unop, e: Expr) | Bin(op: Binop, l: Expr, r: Expr)

  datatype Token =
    | Word(id: nat) | LPar | RPar | KwNot | Hash | Minus
    | Plus | Times | Slash | Percent | Caret | Dots
    | TNe | TEq | TLt | TLe | TGt | TGe | KwAnd | KwOr

  function GetUnopr(t: Token): Option<Unop> {
    match t
    case KwNot => Some(NOT)
    case Minus => Some(MINUS)
    case Hash => Some(LEN)
    case _ => None
  }

  function GetBinopr(t: Token): Option<Binop> {
    match t
    case Plus => Some(ADD)
    case Minus => Some(SUB)
    case Times => Some(MUL)
    case Slash => Some(DIV)
    case Percent => Some(MOD)
    case Caret => Some(POW)
    case Dots => Some(CONCAT)
    case TNe => Some(NE)
    case TEq => Some(EQ)
    case TLt => Some(LT)
    case TLe => Some(LE)
    case TGt => Some(GT)
    case TGe => Some(GE)
    case KwAnd => Some(AND)
    case KwOr => Some(OR)
    case _ => None
  }

  // The priority table: left and right priority of each binary operator.
  function Left(op: Binop): nat {
    match op
    case ADD => 6 case SUB => 6
    case MUL => 7 case DIV => 7 case MOD => 7
    case POW => 10 case CONCAT => 5
    case NE => 3 case EQ => 3 case LT => 3 case LE => 3 case GT => 3 case GE => 3
    case AND => 2 case OR => 1
  }

  function Right(op: Binop): nat {
    match op
    case POW => 9
    case CONCAT => 4
    case _ => Left(op)
  }

  const UNARY_PRIORITY: nat := 8

  datatype Result = Ok(e: Expr, rest: seq<Token>) | Err(msg: string)

  const TOO_DEEP := "chunk has too many syntax levels"

  // ---------- what the parser computes ----------

  /** subexpr: an expression whose operators have a priority above `limit', from the front of
      the tokens, `level' calls deep. */
  function Parse(toks: seq<Token>, limit: nat, level: nat): (r: Result)
    ensures r.Ok? ==> |r.rest| < |toks|
    decreases |toks|, 1
  {
    if level + 1 > LUAI_MAXCCALLS then Err(TOO_DEEP)
    else if toks == [] then Err("unexpected symbol")
    else
      var r := ParseHead(toks, level);
      if r.Ok? then Loop(r.e, r.rest, limit, level) else r
  }

  // A unary operator with its operand, an atom, or an expression in parentheses.
  function ParseHead(toks: seq<Token>, level: nat): (r: Result)
    requires toks != []
    ensures r.Ok? ==> |r.rest| < |toks|
    decreases |toks|, 0
  {
    if GetUnopr(toks[0]).Some? then
      var r := Parse(toks[1..], UNARY_PRIORITY, level + 1);
      if r.Ok? then Ok(Un(GetUnopr(toks[0]).value, r.e), r.rest) else r
    else if toks[0].Word? then Ok(Atom(toks[0].id), toks[1..])
    else if toks[0].LPar? then
      var r := Parse(toks[1..], 0, level + 1);
      if r.Err? then r
      else if r.rest != [] && r.rest[0].RPar? then Ok(r.e, r.rest[1..])
      else Err("')' expected")
    else Err("unexpected symbol")
  }

  // The loop of subexpr, with `left' read.
  function Loop(left: Expr, toks: seq<Token>, limit: nat, level: nat): (r: Result)
    ensures r.Ok? ==> |r.rest| <= |toks|
    decreases |toks|, 0
  {
    if toks != [] && GetBinopr(toks[0]).Some? && Left(GetBinopr(toks[0]).value) > limit then
      var op := GetBinopr(toks[0]).value;
      var r := Parse(toks[1..], Right(op), level + 1);
      if r.Ok? then Loop(Bin(op, left, r.e), r.rest, limit, level) else r
    else Ok(left, toks)
  }

  // The operator at the front, if there is one.
  function NextOp(toks: seq<Token>): Option<Binop> { if toks == [] then None else GetBinopr(toks[0]) }

  // One call of Parse and one turn of Loop.
  lemma ParseStarts(toks: seq<Token>, limit: nat, level: nat)
    ensures level + 1 > LUAI_MAXCCALLS ==> Parse(toks, limit, level) == Err(TOO_DEEP)
    ensures level + 1 <= LUAI_MAXCCALLS && toks == [] ==> Parse(toks, limit, level) == Err("unexpected symbol")
    ensures level + 1 <= LUAI_MAXCCALLS && toks != [] ==>
              var r := ParseHead(toks, level);
              Parse(toks, limit, level) == if r.Ok? then Loop(r.e, r.rest, limit, level) else r
  {
  }

  lemma LoopTurns(left: Expr, toks: seq<Token>, limit: nat, level: nat)
    ensures var op := NextOp(toks);
            if op.Some? && Left(op.value) > limit then
              var r := Parse(toks[1..], Right(op.value), level + 1);
              Loop(left, toks, limit, level) ==
              if r.Ok? then Loop(Bin(op.value, left, r.e), r.rest, limit, level) else r
            else Loop(left, toks, limit, level) == Ok(left, toks)
  {
    hide Parse, Left, Right;
  }

  // ---------- the parser ----------

  class Parser {
    const toks: seq<Token>
    var pos: nat
    var nCcalls: nat

    constructor (ts: seq<Token>, level: nat)
      ensures toks == ts && pos == 0 && nCcalls == level
    {
      toks, pos, nCcalls := ts, 0, level;
    }

    /** The recursive loop computes Parse and returns the first operator it did not treat. */
    method Subexpr(limit: nat) returns (st: Status, v: Expr, op: Option<Binop>)
      requires pos <= |toks|
      modifies this
      ensures pos <= |toks|
      ensures match Parse(toks[old(pos)..], limit, old(nCcalls))
              case Ok(e, rest) =>
                && st.Success? && v == e && toks[pos..] == rest && pos > old(pos) && nCcalls == old(nCcalls)
                && op == NextOp(rest)
              case Err(msg) => st == Failure(msg)
      decreases |toks| - pos, 2
    {
      hide Parse, ParseHead, Loop, GetBinopr, GetUnopr, Left, Right;
      ghost var spec, level := Parse(toks[pos..], limit, nCcalls), nCcalls;
      ParseStarts(toks[pos..], limit, nCcalls);
      v, op := Atom(0), None;
      nCcalls := nCcalls + 1;  // enterlevel
      if nCcalls > LUAI_MAXCCALLS {
        return Failure(TOO_DEEP), v, op;
      }
      if pos == |toks| {
        return Failure("unexpected symbol"), v, op;
      }
      st, v := Head();
      if st.Failure? {
        return;
      }
      op := if pos == |toks| then None else GetBinopr(toks[pos]);
      LoopTurns(v, toks[pos..], limit, level);
      // operators that bind more tightly than the limit
      while op.Some? && Left(op.value) > limit
        invariant old(pos) < pos <= |toks| && nCcalls == level + 1
        invariant spec == Loop(v, toks[pos..], limit, level) && op == NextOp(toks[pos..])
        decreases |toks| - pos
      {
        LoopTurns(v, toks[pos..], limit, level);
        assert toks[pos..][1..] == toks[pos + 1..];
        pos := pos + 1;
        // the right operand
        var v2, nextop;
        st, v2, nextop := Subexpr(Right(op.value));
        if st.Failure? {
          return;
        }
        v := Bin(op.value, v, v2);
        op := nextop;
      }
      LoopTurns(v, toks[pos..], limit, level);
      nCcalls := nCcalls - 1;  // leavelevel
      st := Success;
    }

    // an operand
    method Head() returns (st: Status, v: Expr)
      requires pos < |toks| && 1 <= nCcalls
      modifies this
      ensures pos <= |toks|
      ensures match ParseHead(toks[old(pos)..], old(nCcalls) - 1)
              case Ok(e, rest) =>
                && st.Success? && v == e && toks[pos..] == rest && pos > old(pos) && nCcalls == old(nCcalls)
              case Err(msg) => st == Failure(msg)
      decreases |toks| - pos, 1
    {
      var uop := GetUnopr(toks[pos]);
      assert toks[pos..][1..] == toks[pos + 1..];
      if uop.Some? {
        pos := pos + 1;
        var op;
        st, v, op := Subexpr(UNARY_PRIORITY);
        v := Un(uop.value, v);
      } else {
        st, v := SimpleExp();
      }
    }

    // simpleexp and prefixexp
    method SimpleExp() returns (st: Status, v: Expr)
      requires pos < |toks| && GetUnopr(toks[pos]).None?
      modifies this
      ensures pos <= |toks|
      ensures toks[old(pos)].Word? ==>
                st.Success? && v == Atom(toks[old(pos)].id) && pos == old(pos) + 1 && nCcalls == old(nCcalls)
      ensures toks[old(pos)].LPar? ==>
                match Parse(toks[old(pos) + 1..], 0, old(nCcalls))
                case Ok(e, rest) =>
                  if rest != [] && rest[0].RPar? then
                    && st.Success? && v == e
                    && pos > old(pos) && toks[pos..] == rest[1..] && nCcalls == old(nCcalls)
                  else st == Failure("')' expected")
                case Err(msg) => st == Failure(msg)
      ensures !toks[old(pos)].Word? && !toks[old(pos)].LPar? ==> st == Failure("unexpected symbol")
      decreases |toks| - pos, 0
    {
      v := Atom(0);
      if toks[pos].Word? {
        v := Atom(toks[pos].id);
        pos := pos + 1;
        return Success, v;
      }
      if toks[pos].LPar? {
        pos := pos + 1;
        var op;
        st, v, op := Subexpr(0);
        if st.Failure? {
          return;
        }
        if pos == |toks| || !toks[pos].RPar? {
          return Failure("')' expected"), v;
        }
        assert toks[pos..][1..] == toks[pos + 1..];
        pos := pos + 1;
        return Success, v;
      }
      return Failure("unexpected symbol"), v;
    }
  }

  // ---------- printing ----------

  function UnTok(u: Unop): Token {
    match u case NOT => KwNot case MINUS => Minus case LEN => Hash
  }

  function BinTok(op: Binop): Token {
    match op
    case ADD => Plus case SUB => Minus case MUL => Times case DIV => Slash case MOD => Percent
    case POW => Caret case CONCAT => Dots case NE => TNe case EQ => TEq case LT => TLt case LE => TLe
    case GT => TGt case GE => TGe case AND => KwAnd case OR => KwOr
  }

  // Where operators must have a priority above `limit' and the next token is an operator of
  // priority at most `follow' (0 if none), the tree needs no parentheses.
  predicate Bare(e: Expr, limit: nat, follow: nat) {
    match e
    case Atom(_) => true
    case Un(_, _) => follow <= UNARY_PRIORITY
    case Bin(op, _, _) => limit < Left(op) && follow <= Right(op)
  }

  /** Prints a tree with parentheses only where it is not bare. */
  function Print(e: Expr, limit: nat, follow: nat): (ts: seq<Token>)
    decreases e, 1
  {
    if Bare(e, limit, follow) then Plain(e, limit, follow)
    else [LPar] + Plain(e, 0, 0) + [RPar]
  }

  function Plain(e: Expr, limit: nat, follow: nat): (ts: seq<Token>)
    decreases e, 0
  {
    match e
    case Atom(id) => [Word(id)]
    case Un(u, a) => [UnTok(u)] + Print(a, UNARY_PRIORITY, follow)
    case Bin(op, l, r) => Print(l, limit, Left(op)) + [BinTok(op)] + Print(r, Right(op), follow)
  }

  // How many calls of subexpr are nested when the printed tree is read.
  function Nesting(e: Expr, limit: nat, follow: nat): nat
    decreases e, 1
  {
    if Bare(e, limit, follow) then PlainNesting(e, limit, follow) else 1 + PlainNesting(e, 0, 0)
  }

  function PlainNesting(e: Expr, limit: nat, follow: nat): nat
    decreases e, 0
  {
    match e
    case Atom(_) => 1
    case Un(_, a) => 1 + Nesting(a, UNARY_PRIORITY, follow)
    case Bin(op, l, r) => Max(Nesting(l, limit, Left(op)), 1 + Nesting(r, Right(op), follow))
  }

  function Max(a: nat, b: nat): nat { if a < b then b else a }

  // The priority of the operator at the front, 0 if there is none.
  function Front(toks: seq<Token>): nat {
    if toks != [] && GetBinopr(toks[0]).Some? then Left(GetBinopr(toks[0]).value) else 0
  }

  lemma TokensMean(op: Binop, u: Unop)
    ensures GetBinopr(BinTok(op)) == Some(op) && GetUnopr(UnTok(u)) == Some(u)
    ensures 0 < Right(op) <= Left(op)
  {
  }

  /** Reading a printed tree, whatever follows it: the tree becomes the left operand of the
      loop, unless its nesting is too deep. */
  lemma {:induction false} ReadsPrinted(e: Expr, limit: nat, follow: nat, rest: seq<Token>, level: nat)
    requires Front(rest) <= follow
    ensures Parse(Print(e, limit, follow) + rest, limit, level) ==
            if level + Nesting(e, limit, follow) <= LUAI_MAXCCALLS then Loop(e, rest, limit, level) else Err(TOO_DEEP)
    decreases e, 1
  {
    if Bare(e, limit, follow) {
      ReadsPlain(e, limit, follow, rest, level);
    } else {
      ReadsPlain(e, 0, 0, [RPar] + rest, level + 1);
      assert Loop(e, [RPar] + rest, 0, level + 1) == Ok(e, [RPar] + rest);
      assert Print(e, limit, follow) + rest == [LPar] + (Plain(e, 0, 0) + ([RPar] + rest));
      InParentheses(Plain(e, 0, 0) + ([RPar] + rest), e, rest, limit, level);
    }
  }

  lemma InParentheses(toks: seq<Token>, e: Expr, rest: seq<Token>, limit: nat, level: nat)
    ensures level + 1 > LUAI_MAXCCALLS ==> Parse([LPar] + toks, limit, level) == Err(TOO_DEEP)
    ensures level + 1 <= LUAI_MAXCCALLS && Parse(toks, 0, level + 1) == Ok(e, [RPar] + rest) ==>
              Parse([LPar] + toks, limit, level) == Loop(e, rest, limit, level)
    ensures level + 1 <= LUAI_MAXCCALLS && Parse(toks, 0, level + 1).Err? ==>
              Parse([LPar] + toks, limit, level) == Parse(toks, 0, level + 1)
  {
    assert ([LPar] + toks)[1..] == toks && ([RPar] + rest)[1..] == rest;
  }

  lemma {:induction false} ReadsPlain(e: Expr, limit: nat, follow: nat, rest: seq<Token>, level: nat)
    requires Front(rest) <= follow && (Bare(e, limit, follow) || (limit == 0 && follow == 0))
    ensures Parse(Plain(e, limit, follow) + rest, limit, level) ==
            if level + PlainNesting(e, limit, follow) <= LUAI_MAXCCALLS then Loop(e, rest, limit, level)
            else Err(TOO_DEEP)
    decreases e, 0
  {
    var toks := Plain(e, limit, follow) + rest;
    match e {
      case Atom(id) =>
        assert toks[1..] == rest;
      case Un(u, a) =>
        TokensMean(ADD, u);
        assert toks[1..] == Print(a, UNARY_PRIORITY, follow) + rest;
        ReadsPrinted(a, UNARY_PRIORITY, follow, rest, level + 1);
        assert Loop(a, rest, UNARY_PRIORITY, level + 1) == Ok(a, rest);
      case Bin(op, l, r) =>
        TokensMean(op, NOT);
        var more := [BinTok(op)] + Print(r, Right(op), follow) + rest;
        assert toks == Print(l, limit, Left(op)) + more;
        assert more[1..] == Print(r, Right(op), follow) + rest;
        ReadsPrinted(l, limit, Left(op), more, level);
        ReadsPrinted(r, Right(op), follow, rest, level + 1);
        assert Loop(r, rest, Right(op), level + 1) == Ok(r, rest);
    }
  }

  /** Parsing what was printed gives the tree back, unless it is nested too deeply. */
  lemma RoundTrip(e: Expr, level: nat)
    ensures Parse(Print(e, 0, 0), 0, level) ==
            if level + Nesting(e, 0, 0) <= LUAI_MAXCCALLS then Ok(e, []) else Err(TOO_DEEP)
  {
    ReadsPrinted(e, 0, 0, [], level);
    assert Print(e, 0, 0) + [] == Print(e, 0, 0);
  }

  // ---------- no shorter text ----------

  // What Front can be.
  predicate IsFront(follow: nat) { follow <= 7 || follow == 10 }

  // Parentheses are needed for the two neighbours of a tree only, not for what is in it.
  lemma {:induction false} BareIsPlain(e: Expr, limit: nat, follow: nat)
    requires Bare(e, limit, follow) && IsFront(follow)
    ensures Plain(e, limit, follow) == Plain(e, 0, 0) && PlainNesting(e, limit, follow) == PlainNesting(e, 0, 0)
    decreases e, 0
  {
    match e {
      case Atom(_) =>
      case Un(_, a) =>
        Inside(a, UNARY_PRIORITY, follow, UNARY_PRIORITY, 0);
      case Bin(op, l, r) =>
        assert IsFront(Left(op));
        Inside(l, limit, Left(op), 0, Left(op));
        Inside(r, Right(op), follow, Right(op), 0);
    }
  }

  // Printing at two places where the tree is bare or not alike.
  lemma {:induction false} Inside(e: Expr, limit: nat, follow: nat, limit1: nat, follow1: nat)
    requires IsFront(follow) && IsFront(follow1)
    requires Bare(e, limit, follow) <==> Bare(e, limit1, follow1)
    ensures Print(e, limit, follow) == Print(e, limit1, follow1)
    ensures Nesting(e, limit, follow) == Nesting(e, limit1, follow1)
    decreases e, 1
  {
    if Bare(e, limit, follow) {
      BareIsPlain(e, limit, follow);
      BareIsPlain(e, limit1, follow1);
    }
  }

  // At most one pair of parentheses makes the difference between two places.
  lemma AtMostOnePair(e: Expr, limit: nat, follow: nat)
    requires IsFront(follow)
    ensures |Print(e, limit, follow)| <= |Print(e, 0, 0)| + 2
    ensures Nesting(e, limit, follow) <= Nesting(e, 0, 0) + 1
  {
    if Bare(e, limit, follow) {
      BareIsPlain(e, limit, follow);
    }
  }

  lemma FrontIsFront(toks: seq<Token>)
    ensures IsFront(Front(toks))
  {
  }

  // What `n' tokens that were read as a tree can be compared with: the printed tree.
  predicate Suffices(n: int, e: Expr, limit: nat, rest: seq<Token>, level: nat) {
    && |Print(e, limit, Front(rest))| <= n
    && level + Nesting(e, limit, Front(rest)) <= LUAI_MAXCCALLS
  }

  lemma {:induction false} ParseSuffices(toks: seq<Token>, limit: nat, level: nat)
    ensures var r := Parse(toks, limit, level);
            r.Ok? ==> Suffices(|toks| - |r.rest|, r.e, limit, r.rest, level) && Front(r.rest) <= limit
    decreases |toks|, 1
  {
    if Parse(toks, limit, level).Ok? {
      HeadSuffices(toks, limit, level);
      var h := ParseHead(toks, level);
      LoopSuffices(|toks| - |h.rest|, h.e, h.rest, limit, level);
    }
  }

  lemma {:induction false} HeadSuffices(toks: seq<Token>, limit: nat, level: nat)
    requires toks != [] && level + 1 <= LUAI_MAXCCALLS
    ensures var h := ParseHead(toks, level);
            h.Ok? ==> Suffices(|toks| - |h.rest|, h.e, limit, h.rest, level)
    decreases |toks|, 0
  {
    var h := ParseHead(toks, level);
    if h.Ok? {
      FrontIsFront(h.rest);
      if GetUnopr(toks[0]).Some? {
        ParseSuffices(toks[1..], UNARY_PRIORITY, level + 1);
      } else if toks[0].LPar? {
        ParseSuffices(toks[1..], 0, level + 1);
        AtMostOnePair(h.e, limit, Front(h.rest));
      }
    }
  }

  lemma {:induction false} LoopSuffices(n: nat, left: Expr, toks: seq<Token>, limit: nat, level: nat)
    requires Suffices(n, left, limit, toks, level)
    ensures var r := Loop(left, toks, limit, level);
            r.Ok? ==> Suffices(n + |toks| - |r.rest|, r.e, limit, r.rest, level) && Front(r.rest) <= limit
    decreases |toks|, 0
  {
    if Loop(left, toks, limit, level).Ok? && Front(toks) > limit {
      var op := GetBinopr(toks[0]).value;
      var r := Parse(toks[1..], Right(op), level + 1);
      ParseSuffices(toks[1..], Right(op), level + 1);
      LoopSuffices(n + |toks| - |r.rest|, Bin(op, left, r.e), r.rest, limit, level);
    }
  }

  /** Print is minimal: of all texts that are read as a tree, the printed one is as short as any, and it
      is not nested too deeply if another is not. So a text with fewer parentheses is a different tree. */
  lemma NoneShorter(toks: seq<Token>, e: Expr, level: nat)
    requires Parse(toks, 0, level) == Ok(e, [])
    ensures |Print(e, 0, 0)| <= |toks| && Parse(Print(e, 0, 0), 0, level) == Ok(e, [])
  {
    hide Parse, Print, Nesting;
    ParseSuffices(toks, 0, level);
    RoundTrip(e, level);
  }

  // ---------- the grammar's precedences ----------

  lemma AtomPrinted(id: nat, limit: nat, follow: nat)
    ensures Print(Atom(id), limit, follow) == [Word(id)] && Nesting(Atom(id), limit, follow) == 1
  {
  }

  lemma PairPrinted(op: Binop, a: nat, b: nat, limit: nat, follow: nat)
    requires limit < Left(op) && follow <= Right(op)
    ensures Print(Bin(op, Atom(a), Atom(b)), limit, follow) == [Word(a), BinTok(op), Word(b)]
    ensures Nesting(Bin(op, Atom(a), Atom(b)), limit, follow) <= 2
  {
    AtomPrinted(a, limit, Left(op));
    AtomPrinted(b, Right(op), follow);
  }

  // Three operands without parentheses, as two trees; each is what its text is read as if it needs none.
  lemma ToTheRight(a: nat, b: nat, c: nat, op: Binop, op1: Binop)
    requires Right(op) < Left(op1)
    ensures Parse([Word(a), BinTok(op), Word(b), BinTok(op1), Word(c)], 0, 0) ==
            Ok(Bin(op, Atom(a), Bin(op1, Atom(b), Atom(c))), [])
  {
    TokensMean(op, NOT);
    hide Left, Right, BinTok, Parse;
    var e := Bin(op, Atom(a), Bin(op1, Atom(b), Atom(c)));
    RoundTrip(e, 0);
    AtomPrinted(a, 0, Left(op));
    PairPrinted(op1, b, c, Right(op), 0);
    assert Print(e, 0, 0) == [Word(a)] + [BinTok(op)] + [Word(b), BinTok(op1), Word(c)]
                          == [Word(a), BinTok(op), Word(b), BinTok(op1), Word(c)];
    assert Nesting(e, 0, 0) <= 3;
  }

  lemma ToTheLeft(a: nat, b: nat, c: nat, op: Binop, op1: Binop)
    requires Left(op1) <= Right(op)
    ensures Parse([Word(a), BinTok(op), Word(b), BinTok(op1), Word(c)], 0, 0) ==
            Ok(Bin(op1, Bin(op, Atom(a), Atom(b)), Atom(c)), [])
  {
    TokensMean(op, NOT);
    TokensMean(op1, NOT);
    hide Left, Right, BinTok, Parse;
    var e := Bin(op1, Bin(op, Atom(a), Atom(b)), Atom(c));
    RoundTrip(e, 0);
    PairPrinted(op, a, b, 0, Left(op1));
    AtomPrinted(c, Right(op1), 0);
    assert Print(e, 0, 0) == [Word(a), BinTok(op), Word(b)] + [BinTok(op1)] + [Word(c)]
                          == [Word(a), BinTok(op), Word(b), BinTok(op1), Word(c)];
    assert Nesting(e, 0, 0) <= 3;
  }

  /** Which operator a token is. */
  lemma OperatorTokens()
    ensures GetBinopr(Plus) == Some(ADD) && GetBinopr(Minus) == Some(SUB) && GetBinopr(Times) == Some(MUL)
    ensures GetBinopr(Slash) == Some(DIV) && GetBinopr(Percent) == Some(MOD) && GetBinopr(Caret) == Some(POW)
    ensures GetBinopr(Dots) == Some(CONCAT) && GetBinopr(KwAnd) == Some(AND) && GetBinopr(KwOr) == Some(OR)
    ensures GetBinopr(TNe) == Some(NE) && GetBinopr(TEq) == Some(EQ) && GetBinopr(TLt) == Some(LT)
    ensures GetBinopr(TLe) == Some(LE) && GetBinopr(TGt) == Some(GT) && GetBinopr(TGe) == Some(GE)
    ensures GetUnopr(KwNot) == Some(NOT) && GetUnopr(Minus) == Some(MINUS) && GetUnopr(Hash) == Some(LEN)
  {
  }

  lemma TokenLevels(t: Token)
    requires GetBinopr(t).Some?
    ensures var op := GetBinopr(t).value;
            && BinTok(op) == t && Right(op) == (if t == Dots then 4 else if t == Caret then 9 else Left(op))
            && Left(op) == (if t == KwOr then 1 else if t == KwAnd then 2
                            else if t in {TNe, TEq, TLt, TLe, TGt, TGe} then 3
                            else if t == Dots then 5 else if t in {Plus, Minus} then 6
                            else if t in {Times, Slash, Percent} then 7 else 10)
  {
  }

  /** Of two operators on different levels the one on the higher level takes the operand between them: `or',
      `and', comparisons, `..', sums, products, `^', from the lowest to the highest. */
  lemma HigherTakesOperand(a: nat, b: nat, c: nat, lo: Token, hi: Token)
    requires var comparisons, sums, products := {TNe, TEq, TLt, TLe, TGt, TGe}, {Plus, Minus}, {Times, Slash, Percent};
             || (lo == KwOr && hi in {KwAnd, Dots, Caret} + comparisons + sums + products)
             || (lo == KwAnd && hi in {Dots, Caret} + comparisons + sums + products)
             || (lo in comparisons && hi in {Dots, Caret} + sums + products)
             || (lo == Dots && hi in {Caret} + sums + products)
             || (lo in sums && hi in {Caret} + products)
             || (lo in products && hi == Caret)
    ensures GetBinopr(lo).Some? && GetBinopr(hi).Some?
    ensures Parse([Word(a), lo, Word(b), hi, Word(c)], 0, 0) ==
            Ok(Bin(GetBinopr(lo).value, Atom(a), Bin(GetBinopr(hi).value, Atom(b), Atom(c))), [])
    ensures Parse([Word(a), hi, Word(b), lo, Word(c)], 0, 0) ==
            Ok(Bin(GetBinopr(lo).value, Bin(GetBinopr(hi).value, Atom(a), Atom(b)), Atom(c)), [])
  {
    OperatorTokens();
    hide Parse, GetBinopr, Left, Right, BinTok;
    var op, op1 := GetBinopr(lo).value, GetBinopr(hi).value;
    TokenLevels(lo);
    TokenLevels(hi);
    ToTheRight(a, b, c, op, op1);
    ToTheLeft(a, b, c, op1, op);
  }

  /** Operators on one level are grouped to the left, but `..' and `^' to the right. */
  lemma SameLevel(a: nat, b: nat, c: nat, t: Token, t1: Token)
    requires || (t == t1 && t in {KwOr, KwAnd, Dots, Caret})
             || {t, t1} <= {TNe, TEq, TLt, TLe, TGt, TGe} || {t, t1} <= {Plus, Minus}
             || {t, t1} <= {Times, Slash, Percent}
    ensures GetBinopr(t).Some? && GetBinopr(t1).Some?
    ensures Parse([Word(a), t, Word(b), t1, Word(c)], 0, 0) ==
            if t in {Dots, Caret}
            then Ok(Bin(GetBinopr(t).value, Atom(a), Bin(GetBinopr(t1).value, Atom(b), Atom(c))), [])
            else Ok(Bin(GetBinopr(t1).value, Bin(GetBinopr(t).value, Atom(a), Atom(b)), Atom(c)), [])
  {
    OperatorTokens();
    hide Parse, GetBinopr, Left, Right, BinTok;
    assert t in {t, t1} && t1 in {t, t1};
    var op, op1 := GetBinopr(t).value, GetBinopr(t1).value;
    TokenLevels(t);
    TokenLevels(t1);
    if t in {Dots, Caret} {
      ToTheRight(a, b, c, op, op1);
    } else {
      ToTheLeft(a, b, c, op, op1);
    }
  }

  /** A unary operator takes its operand before any binary operator but `^'. */
  lemma UnaryTakesOperand(a: nat, b: nat, u: Token, t: Token)
    requires u in {KwNot, Minus, Hash} && GetBinopr(t).Some?
    ensures GetUnopr(u).Some?
    ensures Parse([u, Word(a), t, Word(b)], 0, 0) ==
            if t == Caret then Ok(Un(GetUnopr(u).value, Bin(POW, Atom(a), Atom(b))), [])
            else Ok(Bin(GetBinopr(t).value, Un(GetUnopr(u).value, Atom(a)), Atom(b)), [])
  {
    hide Parse, Print, Nesting;
    var uop, op := GetUnopr(u).value, GetBinopr(t).value;
    assert UnTok(uop) == u && BinTok(op) == t;
    var e := if t == Caret then Un(uop, Bin(POW, Atom(a), Atom(b))) else Bin(op, Un(uop, Atom(a)), Atom(b));
    RoundTrip(e, 0);
    UnaryPrinted(a, b, uop, op);
  }

  lemma UnaryPrinted(a: nat, b: nat, u: Unop, op: Binop)
    ensures var e := if op == POW then Un(u, Bin(POW, Atom(a), Atom(b))) else Bin(op, Un(u, Atom(a)), Atom(b));
            Print(e, 0, 0) == [UnTok(u), Word(a), BinTok(op), Word(b)] && Nesting(e, 0, 0) <= 3
  {
    if op == POW {
      PairPrinted(POW, a, b, UNARY_PRIORITY, 0);
    } else {
      var p := Un(u, Atom(a));
      AtomPrinted(a, UNARY_PRIORITY, Left(op));
      AtomPrinted(b, Right(op), 0);
      assert Print(p, 0, Left(op)) == [UnTok(u), Word(a)] && Nesting(p, 0, Left(op)) <= 2;
    }
  }
}
