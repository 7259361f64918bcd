/** The expression parser: a ladder of eight levels of left-associative operators over prefix and postfix
    operators, with casts outermost. */
module HeliosParser {
  import opened Wrappers
  import A = HeliosAst
  import opened HeliosLexer
  import opened HeliosFormat

  datatype Parse = Parse(tree: Tree, rest: seq<Token>)

  datatype ParseList = ParseList(trees: seq<Tree>, rest: seq<Token>)

  function Peek(ts: seq<Token>): Token {
    if ts == [] then Eof else ts[0]
  }

  /** The parser never moves past its last token. */
  function Advance(ts: seq<Token>): seq<Token> {
    if |ts| > 1 then ts[1..] else ts
  }

  function OpOf(t: Token): (r: Option<A.BinOp>)
    ensures r.Some? ==> OpToken(r.value) == t
  {
    match t
    case Star => Some(A.Mul) case Slash => Some(A.Div) case Percent => Some(A.Mod)
    case Plus => Some(A.Add) case Minus => Some(A.Sub)
    case LtLt => Some(A.Shl) case GtGt => Some(A.Shr)
    case Amp => Some(A.BAnd) case Caret => Some(A.BXor) case Pipe => Some(A.BOr)
    case EqEq => Some(A.Eq) case BangEq => Some(A.Ne)
    case Lt => Some(A.Lt) case LtEq => Some(A.Le) case Gt => Some(A.Gt) case GtEq => Some(A.Ge)
    case AmpAmp => Some(A.LAnd) case PipePipe => Some(A.LOr)
    case _ => None
  }

  /** The level of an operator on the ladder; a lower level binds tighter. */
  function LevelOf(op: A.BinOp): (n: nat)
    ensures 1 <= n <= 8
  {
    match op
    case Mul | Div | Mod => 1
    case Add | Sub => 2
    case Shl | Shr => 3
    case BAnd => 4
    case BXor => 5
    case BOr => 6
    case Eq | Ne | Lt | Le | Gt | Ge => 7
    case LAnd | LOr => 8
  }

  function OpAt(level: nat, t: Token): Option<A.BinOp> {
    var op := OpOf(t);
    if op.Some? && LevelOf(op.value) == level then op else None
  }

  function UnOf(t: Token): Option<A.UnOp> {
    match t
    case Minus => Some(A.Neg) case Bang => Some(A.Not) case Tilde => Some(A.BNot)
    case _ => None
  }

  /** An expression, or `None` if a diagnostic is reported or the text uses a form outside this model
      (`asm!`, `new`, array fills, string and character literals). */
  function Expr(ts: seq<Token>): (r: Option<Parse>)
    ensures r.Some? ==> |r.value.rest| < |ts|
    decreases |ts|, 40
  {
    var p := Ladder(ts, 8);
    if p.None? then None else Some(CastTail(p.value.tree, p.value.rest))
  }

  /** Casts after an expression. A target that is no type name counts as `int`. */
  function CastTail(e: Tree, ts: seq<Token>): (r: Parse)
    ensures |r.rest| <= |ts|
    decreases |ts|
  {
    if Peek(ts) == As then
      var target := if Peek(ts[1..]) == TBool then A.ToBool else A.ToInt;
      CastTail(Cast(e, target), Advance(ts[1..]))
    else Parse(e, ts)
  }

  function Ladder(ts: seq<Token>, level: nat): (r: Option<Parse>)
    requires level <= 8
    ensures r.Some? ==> |r.value.rest| < |ts|
    decreases |ts|, 20 + level
  {
    if level == 0 then Unary(ts)
    else
      var p := Ladder(ts, level - 1);
      if p.None? then None else Tail(p.value.tree, p.value.rest, level)
  }

  /** Further operands of one level after a first one. */
  function Tail(l: Tree, ts: seq<Token>, level: nat): (r: Option<Parse>)
    requires 1 <= level <= 8
    ensures r.Some? ==> |r.value.rest| <= |ts|
    decreases |ts|, 0
  {
    var op := OpAt(level, Peek(ts));
    if op.None? then Some(Parse(l, ts))
    else
      var p := Ladder(ts[1..], level - 1);
      if p.None? then None else Tail(Bin(l, op.value, p.value.tree), p.value.rest, level)
  }

  function Unary(ts: seq<Token>): (r: Option<Parse>)
    ensures r.Some? ==> |r.value.rest| < |ts|
    decreases |ts|, 15
  {
    if UnOf(Peek(ts)).Some? then
      var p := Postfix(ts[1..]);
      if p.None? then None else Some(Parse(Un(UnOf(Peek(ts)).value, p.value.tree), p.value.rest))
    else if Peek(ts) == Star then
      var p := Postfix(ts[1..]);
      if p.None? then None else Some(Parse(Deref(p.value.tree), p.value.rest))
    else Postfix(ts)
  }

  function Postfix(ts: seq<Token>): (r: Option<Parse>)
    ensures r.Some? ==> |r.value.rest| < |ts|
    decreases |ts|, 10
  {
    var p := Primary(ts);
    if p.None? then None else PostTail(p.value.tree, p.value.rest)
  }

  /** Subscripts and field accesses after an expression. */
  function PostTail(e: Tree, ts: seq<Token>): (r: Option<Parse>)
    ensures r.Some? ==> |r.value.rest| <= |ts|
    decreases |ts|, 0
  {
    if Peek(ts) == LBracket then
      var p := Expr(ts[1..]);
      if p.None? || Peek(p.value.rest) != RBracket then None
      else PostTail(Index(e, p.value.tree), p.value.rest[1..])
    else if Peek(ts) == Dot then
      var n := Names(ts);
      if n.None? then None else PostTail(Fields(e, n.value.names), n.value.rest)
    else Some(Parse(e, ts))
  }

  datatype NameList = NameList(names: seq<string>, rest: seq<Token>)

  /** As many field accesses as follow one another. */
  function Names(ts: seq<Token>): (r: Option<NameList>)
    ensures r.Some? ==> |r.value.rest| <= |ts|
    ensures Peek(ts) == Dot && r.Some? ==> |r.value.rest| < |ts|
    decreases |ts|
  {
    if Peek(ts) != Dot then Some(NameList([], ts))
    else if !Peek(ts[1..]).Ident? then None
    else
      var r := Names(ts[2..]);
      if r.None? then None else Some(NameList([ts[1].name] + r.value.names, r.value.rest))
  }

  function Primary(ts: seq<Token>): (r: Option<Parse>)
    ensures r.Some? ==> |r.value.rest| < |ts|
    decreases |ts|, 5
  {
    var t := Peek(ts);
    match t
    case IntLit(n) => Some(Parse(Lit(n), ts[1..]))
    case BoolLit(b) => Some(Parse(Truth(b), ts[1..]))
    case Ident(x) =>
      if Peek(ts[1..]) == LParen then
        var a := Args(ts[2..]);
        if a.None? || Peek(a.value.rest) != RParen then None
        else Some(Parse(Call(x, a.value.trees), a.value.rest[1..]))
      else Some(Parse(Var(x), ts[1..]))
    case Input =>
      if Peek(ts[1..]) == LParen then
        if Peek(ts[2..]) == RParen then Some(Parse(Tree.Input, ts[3..])) else None
      else Some(Parse(Tree.Input, ts[1..]))
    case LParen =>
      var p := Expr(ts[1..]);
      if p.None? || Peek(p.value.rest) != RParen then None
      else Some(Parse(p.value.tree, p.value.rest[1..]))
    case LBracket =>
      var p := Expr(ts[1..]);
      if p.None? then None
      else
        var i := Items(p.value.rest);
        if i.None? || Peek(i.value.rest) != RBracket then None
        else Some(Parse(Array([p.value.tree] + i.value.trees), i.value.rest[1..]))
    case Star =>
      var p := Primary(ts[1..]);
      if p.None? then None else Some(Parse(Deref(p.value.tree), p.value.rest))
    case Amp => if Peek(ts[1..]).Ident? then Some(Parse(AddrOf(ts[1].name), ts[2..])) else None
    case Minus | Bang | Tilde =>
      var p := Primary(ts[1..]);
      if p.None? then None else Some(Parse(Un(UnOf(t).value, p.value.tree), p.value.rest))
    case _ => None
  }

  /** The arguments of a call. A comma between two of them may be missing. */
  function Args(ts: seq<Token>): (r: Option<ParseList>)
    ensures r.Some? ==> |r.value.rest| <= |ts|
    decreases |ts|, 50
  {
    if Peek(ts) == RParen || Peek(ts) == Eof then Some(ParseList([], ts))
    else
      var p := Expr(ts);
      if p.None? then None
      else
        var u := if Peek(p.value.rest) == Comma then p.value.rest[1..] else p.value.rest;
        var a := Args(u);
        if a.None? then None else Some(ParseList([p.value.tree] + a.value.trees, a.value.rest))
  }

  /** The items of an array after the first one. The last may be followed by a comma. */
  function Items(ts: seq<Token>): (r: Option<ParseList>)
    ensures r.Some? ==> |r.value.rest| <= |ts|
    decreases |ts|, 0
  {
    if Peek(ts) != Comma then Some(ParseList([], ts))
    else if Peek(ts[1..]) == RBracket then Some(ParseList([], ts[1..]))
    else
      var p := Expr(ts[1..]);
      if p.None? then None
      else
        var i := Items(p.value.rest);
        if i.None? then None else Some(ParseList([p.value.tree] + i.value.trees, i.value.rest))
  }

  /** The expression a whole text stands for: after it, only the end of the text is left. */
  function ParseText(text: string): Option<Tree> {
    var p := Expr(Lex(text));
    if p.Some? && p.value.rest == [Eof] then Some(p.value.tree) else None
  }

  /** What a parser method returns and leaves unread, against what its function says. */
  predicate Agrees(p: Option<Parse>, e: Option<Tree>, rest: seq<Token>) {
    if p.None? then e.None? else e == Some(p.value.tree) && rest == p.value.rest
  }

  // Lists under construction: what has been read goes in front of what is still to come.

  function NamesAfter(fs: seq<string>, r: Option<NameList>): Option<NameList> {
    if r.None? then None else Some(NameList(fs + r.value.names, r.value.rest))
  }

  function TreesAfter(es: seq<Tree>, r: Option<ParseList>): Option<ParseList> {
    if r.None? then None else Some(ParseList(es + r.value.trees, r.value.rest))
  }

  lemma NothingBefore(r: Option<NameList>, q: Option<ParseList>)
    ensures NamesAfter([], r) == r && TreesAfter([], q) == q
  {
    assert r.Some? ==> [] + r.value.names == r.value.names;
    assert q.Some? ==> [] + q.value.trees == q.value.trees;
  }

  lemma NoNames(ts: seq<Token>)
    requires Peek(ts) != Dot
    ensures Names(ts) == Some(NameList([], ts))
  {
  }

  lemma NoArgsLeft(ts: seq<Token>)
    requires Peek(ts) == RParen || Peek(ts) == Eof
    ensures Args(ts) == Some(ParseList([], ts))
  {
  }

  lemma NoItemsLeft(ts: seq<Token>)
    ensures Peek(ts) != Comma ==> Items(ts) == Some(ParseList([], ts))
    ensures Peek(ts) == Comma && Peek(ts[1..]) == RBracket ==> Items(ts) == Some(ParseList([], ts[1..]))
  {
    hide Expr;
  }

  lemma OneMoreName(fs: seq<string>, ts: seq<Token>)
    requires Peek(ts) == Dot
    ensures NamesAfter(fs, Names(ts)) ==
            if |ts| > 1 && ts[1].Ident? then NamesAfter(fs + [ts[1].name], Names(ts[2..])) else None
  {
    if |ts| > 1 && ts[1].Ident? && Names(ts[2..]).Some? {
      var r := Names(ts[2..]).value;
      assert fs + ([ts[1].name] + r.names) == (fs + [ts[1].name]) + r.names;
    }
  }

  lemma OneMoreArg(es: seq<Tree>, ts: seq<Token>)
    requires Peek(ts) != RParen && Peek(ts) != Eof
    ensures var p := Expr(ts);
            TreesAfter(es, Args(ts)) ==
            if p.None? then None
            else TreesAfter(es + [p.value.tree],
                            Args(if Peek(p.value.rest) == Comma then p.value.rest[1..] else p.value.rest))
  {
    hide Expr;
    var p := Expr(ts);
    if p.Some? {
      var r := Args(if Peek(p.value.rest) == Comma then p.value.rest[1..] else p.value.rest);
      assert r.Some? ==> es + ([p.value.tree] + r.value.trees) == (es + [p.value.tree]) + r.value.trees;
    }
  }

  lemma OneMoreItem(es: seq<Tree>, ts: seq<Token>)
    requires Peek(ts) == Comma && Peek(ts[1..]) != RBracket
    ensures var p := Expr(ts[1..]);
            TreesAfter(es, Items(ts)) ==
            if p.None? then None else TreesAfter(es + [p.value.tree], Items(p.value.rest))
  {
    hide Expr;
    var p := Expr(ts[1..]);
    if p.Some? {
      var r := Items(p.value.rest);
      assert r.Some? ==> es + ([p.value.tree] + r.value.trees) == (es + [p.value.tree]) + r.value.trees;
    }
  }

  lemma NotLast(level: nat, t: Token)
    ensures OpAt(level, t).Some? ==> t != Eof && t != Foreign
  {
  }

  // The loops over casts and operands, one round at a time.

  lemma CastRound(e: Tree, ts: seq<Token>)
    ensures Peek(ts) == As ==>
              var target := if Peek(ts[1..]) == TBool then A.ToBool else A.ToInt;
              CastTail(e, ts) == CastTail(Cast(e, target), Advance(ts[1..]))
    ensures Peek(ts) != As ==> CastTail(e, ts) == Parse(e, ts)
  {
  }

  lemma OperandRound(l: Tree, ts: seq<Token>, level: nat)
    requires 1 <= level <= 8
    ensures var op := OpAt(level, Peek(ts));
            if op.None? then Tail(l, ts, level) == Some(Parse(l, ts))
            else
              var p := Ladder(ts[1..], level - 1);
              Tail(l, ts, level) == if p.None? then None else Tail(Bin(l, op.value, p.value.tree), p.value.rest, level)
  {
    hide Ladder, OpAt;
  }

  // Primary expressions, one kind at a time.

  lemma AtGroup(ts: seq<Token>)
    requires Peek(ts) == LParen
    ensures var p := Expr(ts[1..]);
            Primary(ts) == if p.None? || Peek(p.value.rest) != RParen then None
                           else Some(Parse(p.value.tree, p.value.rest[1..]))
  {
    hide Expr;
  }

  lemma AtArray(ts: seq<Token>)
    requires Peek(ts) == LBracket
    ensures var p := Expr(ts[1..]);
            Primary(ts) ==
            if p.None? then None
            else
              var i := Items(p.value.rest);
              if i.None? || Peek(i.value.rest) != RBracket then None
              else Some(Parse(Array([p.value.tree] + i.value.trees), i.value.rest[1..]))
  {
    hide Expr, Items;
  }

  lemma AtPrefix(ts: seq<Token>)
    requires UnOf(Peek(ts)).Some? || Peek(ts) == Star
    ensures var p := Primary(ts[1..]);
            Primary(ts) ==
            if p.None? then None
            else Some(Parse(if Peek(ts) == Star then Deref(p.value.tree) else Un(UnOf(Peek(ts)).value, p.value.tree),
                            p.value.rest))
  {
  }

  lemma NoPrimary(ts: seq<Token>)
    requires var t := Peek(ts);
             !t.IntLit? && !t.BoolLit? && !t.Ident? && t != Token.Input && t != LParen && t != LBracket && t != Amp
             && t != Star && t != Minus && t != Bang && t != Tilde
    ensures Primary(ts).None? && Agrees(Primary(ts), None, ts)
  {
  }

  class Parser {
    const tokens: seq<Token>
    var pos: nat

    constructor (tokens: seq<Token>)
      requires tokens != [] && (tokens[|tokens| - 1] == Eof || tokens[|tokens| - 1] == Foreign)
      ensures Valid() && Rest() == tokens && this.tokens == tokens
    {
      this.tokens := tokens;
      pos := 0;
    }

    ghost predicate Valid()
      reads this
    {
      pos < |tokens| && (tokens[|tokens| - 1] == Eof || tokens[|tokens| - 1] == Foreign)
    }

    /** The tokens still to be read. */
    ghost function Rest(): seq<Token>
      requires Valid()
      reads this
    {
      tokens[pos..]
    }

    function Current(): (t: Token)
      requires Valid()
      reads this
      ensures t == Peek(Rest())
    {
      tokens[pos]
    }

    method Move()
      requires Valid()
      modifies this
      ensures Valid() && Rest() == Advance(old(Rest()))
      ensures old(Current()) != Eof && old(Current()) != Foreign ==> Rest() == old(Rest())[1..] && pos == old(pos) + 1
    {
      if pos + 1 < |tokens| {
        pos := pos + 1;
      }
    }

    method ParseExpr() returns (e: Option<Tree>)
      requires Valid()
      modifies this
      ensures Valid() && Agrees(Expr(old(Rest())), e, Rest()) && pos >= old(pos)
      decreases |tokens| - pos, 40
    {
      hide Ladder, CastTail;
      e := ParseLevel(8);
      if e.Some? {
        var tree := ParseCasts(e.value);
        e := Some(tree);
      }
    }

    method ParseCasts(first: Tree) returns (tree: Tree)
      requires Valid()
      modifies this
      ensures Valid() && CastTail(first, old(Rest())) == Parse(tree, Rest()) && pos >= old(pos)
    {
      hide CastTail;
      tree := first;
      ghost var whole := CastTail(first, Rest());
      while Current() == As
        invariant Valid() && whole == CastTail(tree, Rest()) && pos >= old(pos)
        decreases |tokens| - pos
      {
        CastRound(tree, Rest());
        Move();
        var target := if Current() == TBool then A.ToBool else A.ToInt;
        Move();
        tree := Cast(tree, target);
      }
      CastRound(tree, Rest());
    }

    method ParseLevel(level: nat) returns (e: Option<Tree>)
      requires Valid() && level <= 8
      modifies this
      ensures Valid() && Agrees(Ladder(old(Rest()), level), e, Rest()) && pos >= old(pos)
      decreases |tokens| - pos, 20 + level
    {
      hide Unary, OpAt;
      if level == 0 {
        e := ParseUnary();
        return;
      }
      e := ParseLevel(level - 1);
      if e.Some? {
        e := ParseOperands(e.value, level);
      }
    }

    /** The loop of one level, after its first operand. */
    method ParseOperands(first: Tree, level: nat) returns (e: Option<Tree>)
      requires Valid() && 1 <= level <= 8
      modifies this
      ensures Valid() && Agrees(Tail(first, old(Rest()), level), e, Rest()) && pos >= old(pos)
      decreases |tokens| - pos, 0
    {
      hide Ladder, OpAt, Tail;
      var tree := first;
      ghost var whole := Tail(first, Rest(), level);
      while OpAt(level, Current()).Some?
        invariant Valid() && whole == Tail(tree, Rest(), level) && pos >= old(pos)
        decreases |tokens| - pos
      {
        var op := OpAt(level, Current()).value;
        OperandRound(tree, Rest(), level);
        NotLast(level, Current());
        Move();
        var r := ParseLevel(level - 1);
        if r.None? {
          return None;
        }
        tree := Bin(tree, op, r.value);
      }
      OperandRound(tree, Rest(), level);
      e := Some(tree);
    }

    method ParseUnary() returns (e: Option<Tree>)
      requires Valid()
      modifies this
      ensures Valid() && Agrees(Unary(old(Rest())), e, Rest()) && pos >= old(pos)
      decreases |tokens| - pos, 15
    {
      hide Postfix;
      var t := Current();
      if UnOf(t).Some? || t == Star {
        Move();
        e := ParsePostfix();
        if e.Some? {
          e := Some(if t == Star then Deref(e.value) else Un(UnOf(t).value, e.value));
        }
      } else {
        e := ParsePostfix();
      }
    }

    method ParsePostfix() returns (e: Option<Tree>)
      requires Valid()
      modifies this
      ensures Valid() && Agrees(Postfix(old(Rest())), e, Rest()) && pos >= old(pos)
      decreases |tokens| - pos, 10
    {
      hide Primary, Expr, Names;
      e := ParsePrimary();
      if e.None? {
        return;
      }
      ghost var whole := Postfix(old(Rest()));
      var tree := e.value;
      while Current() == LBracket || Current() == Dot
        invariant Valid() && whole == PostTail(tree, Rest()) && pos > old(pos)
        decreases |tokens| - pos
      {
        if Current() == LBracket {
          Move();
          var i := ParseExpr();
          if i.None? || Current() != RBracket {
            return None;
          }
          Move();
          tree := Index(tree, i.value);
        } else {
          var fs := ParseNames();
          if fs.None? {
            return None;
          }
          tree := Fields(tree, fs.value);
        }
      }
      e := Some(tree);
    }

    method ParseNames() returns (fs: Option<seq<string>>)
      requires Valid()
      modifies this
      ensures Valid() && pos >= old(pos)
      ensures var n := Names(old(Rest()));
              if n.None? then fs.None? else fs == Some(n.value.names) && Rest() == n.value.rest
    {
      hide Names;
      var names := [];
      ghost var whole := Names(Rest());
      NothingBefore(whole, None);
      while Current() == Dot
        invariant Valid() && pos >= old(pos) && whole == NamesAfter(names, Names(Rest()))
        decreases |tokens| - pos
      {
        ghost var ts := Rest();
        OneMoreName(names, ts);
        Move();
        assert Current() == ts[1];
        if !Current().Ident? {
          return None;
        }
        var x := Current().name;
        Move();
        assert Rest() == ts[2..];
        names := names + [x];
      }
      NoNames(Rest());
      assert names + [] == names;
      fs := Some(names);
    }

    method ParseArgs() returns (es: Option<seq<Tree>>)
      requires Valid()
      modifies this
      ensures Valid() && pos >= old(pos)
      ensures var a := Args(old(Rest()));
              if a.None? then es.None? else es == Some(a.value.trees) && Rest() == a.value.rest
      decreases |tokens| - pos, 50
    {
      hide Args, Expr;
      var args := [];
      ghost var whole := Args(Rest());
      NothingBefore(None, whole);
      while Current() != RParen && Current() != Eof
        invariant Valid() && pos >= old(pos) && whole == TreesAfter(args, Args(Rest()))
        decreases |tokens| - pos
      {
        OneMoreArg(args, Rest());
        var e := ParseExpr();
        if e.None? {
          return None;
        }
        if Current() == Comma {
          Move();
        }
        args := args + [e.value];
      }
      NoArgsLeft(Rest());
      assert args + [] == args;
      es := Some(args);
    }

    method ParseItems(first: Tree) returns (es: Option<seq<Tree>>)
      requires Valid()
      modifies this
      ensures Valid() && pos >= old(pos)
      ensures var a := Items(old(Rest()));
              if a.None? then es.None? else es == Some([first] + a.value.trees) && Rest() == a.value.rest
      decreases |tokens| - pos, 50
    {
      hide Items;
      var items := [first];
      ghost var whole := TreesAfter([first], Items(Rest()));
      while Current() == Comma
        invariant Valid() && pos >= old(pos) && whole == TreesAfter(items, Items(Rest()))
        decreases |tokens| - pos
      {
        hide Expr;
        ghost var ts := Rest();
        Move();
        if Current() == RBracket {
          NoItemsLeft(ts);
          assert items + [] == items;
          return Some(items);
        }
        OneMoreItem(items, ts);
        var e := ParseExpr();
        if e.None? {
          return None;
        }
        items := items + [e.value];
      }
      NoItemsLeft(Rest());
      assert items + [] == items;
      es := Some(items);
    }

    method ParsePrimary() returns (e: Option<Tree>)
      requires Valid()
      modifies this
      ensures Valid() && Agrees(Primary(old(Rest())), e, Rest()) && pos >= old(pos)
      decreases |tokens| - pos, 5
    {
      hide Primary, Agrees, Expr;
      match Current()
      case IntLit(_) | BoolLit(_) => e := ParseLiteral();
      case Ident(_) => e := ParseNamed();
      case Input => e := ParseInput();
      case LParen => e := ParseGroup();
      case LBracket => e := ParseArray();
      case Amp => e := ParseAddress();
      case Star | Minus | Bang | Tilde => e := ParsePrefix();
      case _ =>
        NoPrimary(Rest());
        e := None;
    }

    method ParseLiteral() returns (e: Option<Tree>)
      requires Valid() && (Current().IntLit? || Current().BoolLit?)
      modifies this
      ensures Valid() && Agrees(Primary(old(Rest())), e, Rest()) && pos >= old(pos)
    {
      e := Some(if Current().IntLit? then Lit(Current().n) else Truth(Current().b));
      Move();
    }

    method ParseGroup() returns (e: Option<Tree>)
      requires Valid() && Current() == LParen
      modifies this
      ensures Valid() && Agrees(Primary(old(Rest())), e, Rest()) && pos >= old(pos)
      decreases |tokens| - pos, 0
    {
      hide Expr, Primary;
      AtGroup(Rest());
      Move();
      e := ParseExpr();
      if e.None? || Current() != RParen {
        return None;
      }
      Move();
    }

    method ParsePrefix() returns (e: Option<Tree>)
      requires Valid() && (UnOf(Current()).Some? || Current() == Star)
      modifies this
      ensures Valid() && Agrees(Primary(old(Rest())), e, Rest()) && pos >= old(pos)
      decreases |tokens| - pos, 0
    {
      hide Primary;
      AtPrefix(Rest());
      var t := Current();
      Move();
      e := ParsePrimary();
      if e.Some? {
        e := Some(if t == Star then Deref(e.value) else Un(UnOf(t).value, e.value));
      }
    }

    method ParseAddress() returns (e: Option<Tree>)
      requires Valid() && Current() == Amp
      modifies this
      ensures Valid() && Agrees(Primary(old(Rest())), e, Rest()) && pos >= old(pos)
    {
      ghost var ts := Rest();
      Move();
      if !Current().Ident? {
        return None;
      }
      e := Some(AddrOf(Current().name));
      Move();
      assert Rest() == ts[2..];
    }

    /** A variable or a call. */
    method ParseNamed() returns (e: Option<Tree>)
      requires Valid() && Current().Ident?
      modifies this
      ensures Valid() && Agrees(Primary(old(Rest())), e, Rest()) && pos >= old(pos)
      decreases |tokens| - pos, 0
    {
      hide Expr, Args, Items;
      ghost var ts := Rest();
      var x := Current().name;
      Move();
      if Current() != LParen {
        return Some(Var(x));
      }
      Move();
      assert Rest() == ts[2..];
      var args := ParseArgs();
      if args.None? || Current() != RParen {
        return None;
      }
      Move();
      e := Some(Call(x, args.value));
    }

    method ParseInput() returns (e: Option<Tree>)
      requires Valid() && Current() == Token.Input
      modifies this
      ensures Valid() && Agrees(Primary(old(Rest())), e, Rest()) && pos >= old(pos)
    {
      ghost var ts := Rest();
      Move();
      if Current() == LParen {
        Move();
        assert Rest() == ts[2..];
        if Current() != RParen {
          return None;
        }
        Move();
        assert Rest() == ts[3..];
      }
      e := Some(Tree.Input);
    }

    method ParseArray() returns (e: Option<Tree>)
      requires Valid() && Current() == LBracket
      modifies this
      ensures Valid() && Agrees(Primary(old(Rest())), e, Rest()) && pos >= old(pos)
      decreases |tokens| - pos, 0
    {
      hide Expr, Items, Primary;
      AtArray(Rest());
      Move();
      var first := ParseExpr();
      if first.None? {
        return None;
      }
      var items := ParseItems(first.value);
      if items.None? || Current() != RBracket {
        return None;
      }
      Move();
      e := Some(Array(items.value));
    }
  }

  lemma {:induction false} LexEnds(t: string)
    ensures Lex(t)[|Lex(t)| - 1] == Eof || Lex(t)[|Lex(t)| - 1] == Foreign
    decreases |t|
  {
    hide Next;
    var r := Next(t);
    if r.token != Eof && r.token != Foreign {
      LexEnds(r.rest);
    }
  }

  /** Lexing and parsing a whole text. */
  method ParseWhole(text: string) returns (e: Option<Tree>)
    ensures e == ParseText(text)
  {
    hide Expr, Lex;
    LexEnds(text);
    var lexer := new Lexer(text);
    var tokens := lexer.Tokenise();
    assert text[0..] == text;
    var parser := new Parser(tokens);
    e := parser.ParseExpr();
    assert parser.Rest() == [Eof] <==> parser.pos == |tokens| - 1 && tokens[parser.pos] == Eof;
    if e.Some? && !(parser.pos == |tokens| - 1 && tokens[parser.pos] == Eof) {
      e := None;
    }
  }
}
