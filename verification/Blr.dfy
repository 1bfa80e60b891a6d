/**
 The subset of BLR that the referential-action triggers use (dsql/ddl.c emits it, jrd/par.c reads it):
 its syntax tree, a parser that follows the engine's, and what it does to a database.
 */
module Blr {

  import opened Bytes

  /** BLR counts a name in one byte. */
  type Name = s: seq<byte> | |s| < 256

  const VERSION5: byte := 5
  const EOC: byte := 76
  const END: byte := 255
  const ASSIGNMENT: byte := 1
  const BEGIN: byte := 2
  const ERASE: byte := 5
  const FOR: byte := 7
  const IF: byte := 8
  const MODIFY: byte := 10
  const FIELD: byte := 23
  const NULL: byte := 45
  const EQL: byte := 47
  const NEQ: byte := 48
  const OR: byte := 57
  const AND: byte := 58
  const RSE: byte := 67
  const BOOLEAN: byte := 71
  const RELATION: byte := 74

  datatype Value = Field(ctx: byte, name: Name) | NullValue

  datatype Bool =
    | Eql(l: Value, r: Value)
    | Neq(l: Value, r: Value)
    | And(a: Bool, b: Bool)
    | Or(a: Bool, b: Bool)

  datatype Stmt =
    | If(cond: Bool, yes: Stmt)
    | IfElse(cond: Bool, yes: Stmt, no: Stmt)
    | Block(body: Stmts)
    | For(relation: Name, ctx: byte, cond: Bool, each: Stmt)
    | Modify(org: byte, new_: byte, change: Stmt)
    | Assign(from: Value, to: Value)
    | Erase(ctx: byte)

  datatype Stmts = Nil | Cons(head: Stmt, tail: Stmts)

  datatype Parsed<T> = Bad | Good(tree: T, rest: seq<byte>)

  // ---- the parser ----

  /** A counted name. */
  function ParseName(s: seq<byte>): (r: Parsed<Name>)
    ensures r.Good? ==> |r.rest| < |s|
  {
    if s == [] then Bad
    else
      var k: int := s[0];
      if |s| < 1 + k then Bad
      else
        var n: Name := s[1..1 + k];
        Good(n, s[1 + k..])
  }

  function ParseValue(s: seq<byte>): (r: Parsed<Value>)
    ensures r.Good? ==> |r.rest| < |s|
  {
    if s != [] && s[0] == NULL then Good(NullValue, s[1..])
    else if |s| >= 2 && s[0] == FIELD then
      match ParseName(s[2..])
      case Bad => Bad
      case Good(n, rest) => Good(Field(s[1], n), rest)
    else Bad
  }

  function ParseBool(s: seq<byte>): (r: Parsed<Bool>)
    ensures r.Good? ==> |r.rest| < |s|
    decreases |s|
  {
    if s == [] then Bad
    else if s[0] == EQL || s[0] == NEQ then
      match ParseValue(s[1..])
      case Bad => Bad
      case Good(l, s1) =>
        match ParseValue(s1)
        case Bad => Bad
        case Good(r, s2) => Good(if s[0] == EQL then Eql(l, r) else Neq(l, r), s2)
    else if s[0] == AND || s[0] == OR then
      match ParseBool(s[1..])
      case Bad => Bad
      case Good(a, s1) =>
        match ParseBool(s1)
        case Bad => Bad
        case Good(b, s2) => Good(if s[0] == AND then And(a, b) else Or(a, b), s2)
    else Bad
  }

  /** blr_rse with one relation and one boolean clause: the relation, its context, the boolean. */
  function ParseRse(s: seq<byte>): (r: Parsed<(Name, byte, Bool)>)
    ensures r.Good? ==> |r.rest| < |s|
  {
    if |s| < 3 || s[0] != RSE || s[1] != 1 || s[2] != RELATION then Bad
    else
      match ParseName(s[3..])
      case Bad => Bad
      case Good(n, s1) =>
        if |s1| < 2 || s1[1] != BOOLEAN then Bad
        else
          match ParseBool(s1[2..])
          case Bad => Bad
          case Good(b, s2) => if s2 == [] || s2[0] != END then Bad else Good((n, s1[0], b), s2[1..])
  }

  function ParseStmt(s: seq<byte>): (r: Parsed<Stmt>)
    ensures r.Good? ==> |r.rest| < |s|
    decreases |s|, 0
  {
    if s == [] then Bad
    else if s[0] == IF then
      match ParseBool(s[1..])
      case Bad => Bad
      case Good(c, s1) =>
        match ParseStmt(s1)
        case Bad => Bad
        case Good(yes, s2) =>
          if s2 != [] && s2[0] == END then Good(If(c, yes), s2[1..])
          else
            match ParseStmt(s2)
            case Bad => Bad
            case Good(no, s3) => Good(IfElse(c, yes, no), s3)
    else if s[0] == BEGIN then
      match ParseStmts(s[1..])
      case Bad => Bad
      case Good(ss, s1) => Good(Block(ss), s1)
    else if s[0] == FOR then
      match ParseRse(s[1..])
      case Bad => Bad
      case Good((n, ctx, b), s1) =>
        match ParseStmt(s1)
        case Bad => Bad
        case Good(each, s2) => Good(For(n, ctx, b, each), s2)
    else if s[0] == MODIFY && |s| >= 3 then
      match ParseStmt(s[3..])
      case Bad => Bad
      case Good(change, s1) => Good(Modify(s[1], s[2], change), s1)
    else if s[0] == ASSIGNMENT then
      match ParseValue(s[1..])
      case Bad => Bad
      case Good(from, s1) =>
        match ParseValue(s1)
        case Bad => Bad
        case Good(to, s2) => Good(Assign(from, to), s2)
    else if s[0] == ERASE && |s| >= 2 then Good(Erase(s[1]), s[2..])
    else Bad
  }

  /** The statements of a block, up to and including its blr_end. */
  function ParseStmts(s: seq<byte>): (r: Parsed<Stmts>)
    ensures r.Good? ==> |r.rest| < |s|
    decreases |s|, 1
  {
    if s == [] then Bad
    else if s[0] == END then Good(Nil, s[1..])
    else
      match ParseStmt(s)
      case Bad => Bad
      case Good(head, s1) =>
        match ParseStmts(s1)
        case Bad => Bad
        case Good(tail, s2) => Good(Cons(head, tail), s2)
  }

  // ---- the printer ----

  function NameText(n: Name): (r: seq<byte>) { [|n| as byte] + n }

  function ValueText(v: Value): (r: seq<byte>)
  {
    match v
    case NullValue => [NULL]
    case Field(ctx, n) => [FIELD, ctx] + NameText(n)
  }

  function BoolText(b: Bool): (r: seq<byte>)
  {
    match b
    case Eql(x, y) => [EQL] + (ValueText(x) + ValueText(y))
    case Neq(x, y) => [NEQ] + (ValueText(x) + ValueText(y))
    case And(x, y) => [AND] + (BoolText(x) + BoolText(y))
    case Or(x, y) => [OR] + (BoolText(x) + BoolText(y))
  }

  function RseText(relation: Name, ctx: byte, cond: Bool): (r: seq<byte>)
  {
    [RSE, 1, RELATION] + (NameText(relation) + ([ctx, BOOLEAN] + (BoolText(cond) + [END])))
  }

  function StmtText(s: Stmt): (r: seq<byte>)
  {
    match s
    case If(c, yes) => [IF] + (BoolText(c) + (StmtText(yes) + [END]))
    case IfElse(c, yes, no) => [IF] + (BoolText(c) + (StmtText(yes) + StmtText(no)))
    case Block(ss) => [BEGIN] + StmtsText(ss)
    case For(rel, ctx, cond, each) => [FOR] + (RseText(rel, ctx, cond) + StmtText(each))
    case Modify(org, new_, change) => [MODIFY, org, new_] + StmtText(change)
    case Assign(from, to) => [ASSIGNMENT] + (ValueText(from) + ValueText(to))
    case Erase(ctx) => [ERASE, ctx]
  }

  function StmtsText(ss: Stmts): (r: seq<byte>)
  {
    match ss
    case Nil => [END]
    case Cons(s, rest) => StmtText(s) + StmtsText(rest)
  }

  // ---- printing and parsing are inverse ----

  /** Dropping what was put in front. */
  lemma Behind(a: seq<byte>, b: seq<byte>)
    ensures (a + b)[|a|..] == b
    ensures forall i :: 0 <= i < |a| ==> (a + b)[i] == a[i]
  {
  }

  lemma {:induction false} NamePrinted(n: Name, rest: seq<byte>)
    ensures ParseName(NameText(n) + rest) == Good(n, rest)
  {
    var s := NameText(n) + rest;
    assert s[1..1 + |n|] == n;
    assert s[1 + |n|..] == rest;
  }

  lemma {:induction false} ValuePrinted(v: Value, rest: seq<byte>)
    ensures ParseValue(ValueText(v) + rest) == Good(v, rest)
  {
    var s := ValueText(v) + rest;
    if v.Field? {
      assert s == [FIELD, v.ctx] + (NameText(v.name) + rest);
      Behind([FIELD, v.ctx], NameText(v.name) + rest);
      NamePrinted(v.name, rest);
    } else {
      Behind([NULL], rest);
    }
  }

  /** The operator and the two halves of a printed text, followed by anything. */
  lemma {:induction false} Halves(op: byte, a: seq<byte>, b: seq<byte>, rest: seq<byte>)
    ensures var s := [op] + (a + b) + rest; s[0] == op && s[1..] == a + (b + rest)
  {
    assert [op] + (a + b) + rest == [op] + (a + (b + rest));
  }

  lemma {:induction false} BoolPrinted(b: Bool, rest: seq<byte>)
    ensures ParseBool(BoolText(b) + rest) == Good(b, rest)
  {
    match b
    case Eql(x, y) =>
      Halves(EQL, ValueText(x), ValueText(y), rest);
      ValuePrinted(x, ValueText(y) + rest);
      ValuePrinted(y, rest);
    case Neq(x, y) =>
      Halves(NEQ, ValueText(x), ValueText(y), rest);
      ValuePrinted(x, ValueText(y) + rest);
      ValuePrinted(y, rest);
    case And(x, y) =>
      Halves(AND, BoolText(x), BoolText(y), rest);
      BoolPrinted(x, BoolText(y) + rest);
      BoolPrinted(y, rest);
    case Or(x, y) =>
      Halves(OR, BoolText(x), BoolText(y), rest);
      BoolPrinted(x, BoolText(y) + rest);
      BoolPrinted(y, rest);
  }

  lemma {:induction false} RsePrinted(relation: Name, ctx: byte, cond: Bool, rest: seq<byte>)
    ensures ParseRse(RseText(relation, ctx, cond) + rest) == Good((relation, ctx, cond), rest)
  {
    var s := RseText(relation, ctx, cond) + rest;
    var s2 := [END] + rest;
    var s1 := [ctx, BOOLEAN] + (BoolText(cond) + s2);
    assert s == [RSE, 1, RELATION] + (NameText(relation) + s1);
    Behind([RSE, 1, RELATION], NameText(relation) + s1);
    NamePrinted(relation, s1);
    Behind([ctx, BOOLEAN], BoolText(cond) + s2);
    BoolPrinted(cond, s2);
    Behind([END], rest);
  }

  /** No statement begins with blr_end, so an optional else-part and the end of a block are never confused. */
  lemma {:induction false} StmtStart(s: Stmt)
    ensures |StmtText(s)| > 0 && StmtText(s)[0] != END
  {
  }

  /** How the parser goes through a conditional without an else-part, and with one. */
  lemma {:induction false} IfPrinted(t: seq<byte>, c: Bool, t1: seq<byte>, yes: Stmt, rest: seq<byte>)
    requires t != [] && t[0] == IF
    ensures ParseBool(t[1..]) == Good(c, t1) && ParseStmt(t1) == Good(yes, [END] + rest) ==> ParseStmt(t) == Good(If(c, yes), rest)
  {
  }

  lemma {:induction false} IfElsePrinted(t: seq<byte>, c: Bool, t1: seq<byte>, yes: Stmt, t2: seq<byte>, no: Stmt, rest: seq<byte>)
    requires t != [] && t[0] == IF && t2 != [] && t2[0] != END
    ensures ParseBool(t[1..]) == Good(c, t1) && ParseStmt(t1) == Good(yes, t2) && ParseStmt(t2) == Good(no, rest) ==>
              ParseStmt(t) == Good(IfElse(c, yes, no), rest)
  {
  }

  lemma {:induction false} BlockPrinted(t: seq<byte>, ss: Stmts, rest: seq<byte>)
    requires t != [] && t[0] == BEGIN && ParseStmts(t[1..]) == Good(ss, rest)
    ensures ParseStmt(t) == Good(Block(ss), rest)
  {
  }

  lemma {:induction false} ForPrinted(t: seq<byte>, rel: Name, ctx: byte, cond: Bool, t1: seq<byte>, each: Stmt, rest: seq<byte>)
    requires t != [] && t[0] == FOR && ParseRse(t[1..]) == Good((rel, ctx, cond), t1)
    requires ParseStmt(t1) == Good(each, rest)
    ensures ParseStmt(t) == Good(For(rel, ctx, cond, each), rest)
  {
  }

  /** An operator, a boolean and two texts. */
  lemma Thirds(op: byte, a: seq<byte>, b: seq<byte>, c: seq<byte>, rest: seq<byte>)
    ensures var s := [op] + (a + (b + c)) + rest; s[0] == op && s[1..] == a + (b + (c + rest))
  {
    assert [op] + (a + (b + c)) + rest == [op] + (a + (b + (c + rest)));
  }

  /** Every printed statement is read back whole, whatever follows it. */
  /** The printed form in the numbers of jrd/blr.h: values and conditions. */
  lemma BoolBytes(ctx: byte, n: Name, v: Value, w: Value, a: Bool, b: Bool)
    ensures ValueText(Field(ctx, n)) == [23, ctx] + ([|n|] + n) && ValueText(NullValue) == [45]
    ensures BoolText(Eql(v, w)) == [47] + (ValueText(v) + ValueText(w)) && BoolText(Neq(v, w)) == [48] + (ValueText(v) + ValueText(w))
    ensures BoolText(And(a, b)) == [58] + (BoolText(a) + BoolText(b)) && BoolText(Or(a, b)) == [57] + (BoolText(a) + BoolText(b))
  {
  }

  /** The same for a loop over a relation. */
  lemma LoopBytes(ctx: byte, rel: Name, c: Bool, s: Stmt)
    ensures RseText(rel, ctx, c) == [67, 1, 74] + (([|rel|] + rel) + ([ctx, 71] + (BoolText(c) + [255])))
    ensures StmtText(For(rel, ctx, c, s)) == [7] + (RseText(rel, ctx, c) + StmtText(s))
  {
  }

  /** The same for the other statements. */
  lemma StmtBytes(ctx: byte, c: Bool, v: Value, w: Value, s: Stmt, ss: Stmts)
    ensures StmtText(If(c, s)) == [8] + (BoolText(c) + (StmtText(s) + [255])) && StmtText(Block(ss)) == [2] + StmtsText(ss)
    ensures StmtText(Modify(ctx, ctx, s)) == [10, ctx, ctx] + StmtText(s) && StmtText(Erase(ctx)) == [5, ctx]
    ensures StmtText(Assign(v, w)) == [1] + (ValueText(v) + ValueText(w)) && StmtsText(Nil) == [255]
  {
  }

  lemma {:induction false} StmtPrinted(s: Stmt, rest: seq<byte>)
    ensures ParseStmt(StmtText(s) + rest) == Good(s, rest)
    decreases s, 0
  {
    match s
    case If(c, yes) =>
      Thirds(IF, BoolText(c), StmtText(yes), [END], rest);
      BoolPrinted(c, StmtText(yes) + ([END] + rest));
      StmtPrinted(yes, [END] + rest);
      IfPrinted(StmtText(s) + rest, c, StmtText(yes) + ([END] + rest), yes, rest);
    case IfElse(c, yes, no) =>
      Thirds(IF, BoolText(c), StmtText(yes), StmtText(no), rest);
      BoolPrinted(c, StmtText(yes) + (StmtText(no) + rest));
      StmtPrinted(yes, StmtText(no) + rest);
      StmtPrinted(no, rest);
      StmtStart(no);
      IfElsePrinted(StmtText(s) + rest, c, StmtText(yes) + (StmtText(no) + rest), yes, StmtText(no) + rest, no, rest);
    case Block(ss) =>
      Halves(BEGIN, StmtsText(ss), [], rest);
      StmtsPrinted(ss, rest);
      assert StmtsText(ss) + [] == StmtsText(ss) && [] + rest == rest;
      BlockPrinted(StmtText(s) + rest, ss, rest);
    case For(rel, ctx, cond, each) =>
      Halves(FOR, RseText(rel, ctx, cond), StmtText(each), rest);
      RsePrinted(rel, ctx, cond, StmtText(each) + rest);
      StmtPrinted(each, rest);
      ForPrinted(StmtText(s) + rest, rel, ctx, cond, StmtText(each) + rest, each, rest);
    case Modify(org, new_, change) =>
      StmtPrinted(change, rest);
      ModifyText(org, new_, StmtText(change), rest);
      ModifyPrinted(StmtText(s) + rest, change, rest);
    case Assign(from, to) =>
      Halves(ASSIGNMENT, ValueText(from), ValueText(to), rest);
      ValuePrinted(from, ValueText(to) + rest);
      ValuePrinted(to, rest);
      AssignPrinted(StmtText(s) + rest, from, ValueText(to) + rest, to, rest);
    case Erase(ctx) =>
      Behind([ERASE, ctx], rest);
  }

  lemma ModifyText(org: byte, new_: byte, u: seq<byte>, rest: seq<byte>)
    ensures var t := [MODIFY, org, new_] + u + rest;
            |t| >= 3 && t[0] == MODIFY && t[1] == org && t[2] == new_ && t[3..] == u + rest
  {
    assert [MODIFY, org, new_] + u + rest == [MODIFY, org, new_] + (u + rest);
  }

  lemma {:induction false} ModifyPrinted(t: seq<byte>, change: Stmt, rest: seq<byte>)
    requires |t| >= 3 && t[0] == MODIFY && ParseStmt(t[3..]) == Good(change, rest)
    ensures ParseStmt(t) == Good(Modify(t[1], t[2], change), rest)
  {
  }

  lemma {:induction false} AssignPrinted(t: seq<byte>, from: Value, t1: seq<byte>, to: Value, rest: seq<byte>)
    requires t != [] && t[0] == ASSIGNMENT && ParseValue(t[1..]) == Good(from, t1) && ParseValue(t1) == Good(to, rest)
    ensures ParseStmt(t) == Good(Assign(from, to), rest)
  {
  }

  lemma {:induction false} StmtsPrinted(ss: Stmts, rest: seq<byte>)
    ensures ParseStmts(StmtsText(ss) + rest) == Good(ss, rest)
    decreases ss, 1
  {
    match ss
    case Nil => Behind([END], rest);
    case Cons(s, more) =>
      var t := StmtsText(ss) + rest;
      assert t == StmtText(s) + (StmtsText(more) + rest);
      StmtStart(s);
      StmtPrinted(s, StmtsText(more) + rest);
      StmtsPrinted(more, rest);
  }

  lemma {:induction false} NameRead(s: seq<byte>)
    ensures ParseName(s).Good? ==> s == NameText(ParseName(s).tree) + ParseName(s).rest
  {
  }

  lemma {:induction false} ValueRead(s: seq<byte>)
    ensures ParseValue(s).Good? ==> s == ValueText(ParseValue(s).tree) + ParseValue(s).rest
  {
    if |s| >= 2 && s[0] == FIELD {
      NameRead(s[2..]);
      assert s == [s[0], s[1]] + s[2..];
    }
  }

  /** An operator and two texts read one after the other. */
  lemma {:induction false} HalvesRead(s: seq<byte>, op: byte, a: seq<byte>, b: seq<byte>, rest: seq<byte>)
    requires s != [] && s[0] == op && s[1..] == a + (b + rest)
    ensures s == [op] + (a + b) + rest
  {
    assert s == [s[0]] + s[1..];
  }

  lemma {:induction false} BoolRead(s: seq<byte>)
    ensures ParseBool(s).Good? ==> s == BoolText(ParseBool(s).tree) + ParseBool(s).rest
    decreases |s|
  {
    if ParseBool(s).Good? {
      if s[0] == EQL || s[0] == NEQ {
        var x := ParseValue(s[1..]);
        var y := ParseValue(x.rest);
        ValueRead(s[1..]);
        ValueRead(x.rest);
        HalvesRead(s, s[0], ValueText(x.tree), ValueText(y.tree), y.rest);
      } else {
        var x := ParseBool(s[1..]);
        var y := ParseBool(x.rest);
        BoolRead(s[1..]);
        BoolRead(x.rest);
        HalvesRead(s, s[0], BoolText(x.tree), BoolText(y.tree), y.rest);
      }
    }
  }

  lemma {:induction false} RseRead(s: seq<byte>)
    ensures var r := ParseRse(s); r.Good? ==> s == RseText(r.tree.0, r.tree.1, r.tree.2) + r.rest
  {
    if ParseRse(s).Good? {
      var s1 := ParseName(s[3..]).rest;
      var s2 := ParseBool(s1[2..]).rest;
      NameRead(s[3..]);
      BoolRead(s1[2..]);
      RseJoined(s, NameText(ParseName(s[3..]).tree), s1, BoolText(ParseBool(s1[2..]).tree), s2);
    }
  }

  lemma RseJoined(s: seq<byte>, name: seq<byte>, s1: seq<byte>, cond: seq<byte>, s2: seq<byte>)
    requires |s| >= 3 && s[0] == RSE && s[1] == 1 && s[2] == RELATION && s[3..] == name + s1
    requires |s1| >= 2 && s1[1] == BOOLEAN && s1[2..] == cond + s2
    requires s2 != [] && s2[0] == END
    ensures s == [RSE, 1, RELATION] + (name + ([s1[0], BOOLEAN] + (cond + [END]))) + s2[1..]
  {
    assert s == [RSE, 1, RELATION] + s[3..];
    assert s1 == [s1[0], BOOLEAN] + s1[2..];
    assert s2 == [END] + s2[1..];
  }

  /** Only the printed form of a statement parses to it: every accepted text has exactly one reading. */
  lemma {:induction false} StmtRead(s: seq<byte>)
    ensures ParseStmt(s).Good? ==> s == StmtText(ParseStmt(s).tree) + ParseStmt(s).rest
    decreases |s|, 1
  {
    if ParseStmt(s).Good? {
      if s[0] == IF {
        CondRead(s);
      } else if s[0] == BEGIN {
        var body := ParseStmts(s[1..]);
        StmtsRead(s[1..]);
        BlockRead(s, body.tree, body.rest);
      } else if s[0] == FOR {
        LoopRead(s);
      } else if s[0] == MODIFY {
        var change := ParseStmt(s[3..]);
        StmtRead(s[3..]);
        ModifyRead(s, change.tree, change.rest);
      } else if s[0] == ASSIGNMENT {
        var x := ParseValue(s[1..]);
        var y := ParseValue(x.rest);
        ValueRead(s[1..]);
        ValueRead(x.rest);
        AssignRead(s, x.tree, y.tree, y.rest);
      } else {
        assert s == [ERASE, s[1]] + s[2..];
      }
    }
  }

  lemma {:induction false} CondRead(s: seq<byte>)
    requires ParseStmt(s).Good? && s[0] == IF
    ensures s == StmtText(ParseStmt(s).tree) + ParseStmt(s).rest
    decreases |s|, 0
  {
    var c := ParseBool(s[1..]);
    var yes := ParseStmt(c.rest);
    BoolRead(s[1..]);
    StmtRead(c.rest);
    if yes.rest != [] && yes.rest[0] == END {
      IfRead(s, c.tree, yes.tree, yes.rest);
    } else {
      var no := ParseStmt(yes.rest);
      StmtRead(yes.rest);
      IfElseRead(s, c.tree, yes.tree, no.tree, no.rest);
    }
  }

  lemma {:induction false} LoopRead(s: seq<byte>)
    requires ParseStmt(s).Good? && s[0] == FOR
    ensures s == StmtText(ParseStmt(s).tree) + ParseStmt(s).rest
    decreases |s|, 0
  {
    var r := ParseRse(s[1..]);
    var each := ParseStmt(r.rest);
    RseRead(s[1..]);
    StmtRead(r.rest);
    ForRead(s, r.tree.0, r.tree.1, r.tree.2, each.tree, each.rest);
  }

  lemma Joined(a: seq<byte>, b: seq<byte>)
    requires b != [] && b[0] == END
    ensures a + [END] + b[1..] == a + b
  {
    assert b == [END] + b[1..];
  }

  lemma {:induction false} IfRead(s: seq<byte>, c: Bool, yes: Stmt, r: seq<byte>)
    requires s != [] && s[0] == IF && r != [] && r[0] == END && s[1..] == BoolText(c) + (StmtText(yes) + r)
    ensures s == StmtText(If(c, yes)) + r[1..]
  {
    Joined(StmtText(yes), r);
    HalvesRead(s, IF, BoolText(c), StmtText(yes) + [END], r[1..]);
  }

  lemma {:induction false} IfElseRead(s: seq<byte>, c: Bool, yes: Stmt, no: Stmt, r: seq<byte>)
    requires s != [] && s[0] == IF && s[1..] == BoolText(c) + (StmtText(yes) + (StmtText(no) + r))
    ensures s == StmtText(IfElse(c, yes, no)) + r
  {
    Regroup(StmtText(yes), StmtText(no), r);
    HalvesRead(s, IF, BoolText(c), StmtText(yes) + StmtText(no), r);
  }

  lemma {:induction false} BlockRead(s: seq<byte>, body: Stmts, r: seq<byte>)
    requires s != [] && s[0] == BEGIN && s[1..] == StmtsText(body) + r
    ensures s == StmtText(Block(body)) + r
  {
    assert s == [s[0]] + s[1..];
  }

  lemma {:induction false} ForRead(s: seq<byte>, rel: Name, ctx: byte, cond: Bool, each: Stmt, r: seq<byte>)
    requires s != [] && s[0] == FOR && s[1..] == RseText(rel, ctx, cond) + (StmtText(each) + r)
    ensures s == StmtText(For(rel, ctx, cond, each)) + r
  {
    HalvesRead(s, FOR, RseText(rel, ctx, cond), StmtText(each), r);
  }

  lemma {:induction false} AssignRead(s: seq<byte>, from: Value, to: Value, r: seq<byte>)
    requires s != [] && s[0] == ASSIGNMENT && s[1..] == ValueText(from) + (ValueText(to) + r)
    ensures s == StmtText(Assign(from, to)) + r
  {
    HalvesRead(s, ASSIGNMENT, ValueText(from), ValueText(to), r);
  }

  lemma {:induction false} ModifyRead(s: seq<byte>, change: Stmt, rest: seq<byte>)
    requires |s| >= 3 && s[0] == MODIFY && s[3..] == StmtText(change) + rest
    ensures s == StmtText(Modify(s[1], s[2], change)) + rest
  {
    assert s == [MODIFY, s[1], s[2]] + s[3..];
  }

  lemma {:induction false} StmtsRead(s: seq<byte>)
    ensures ParseStmts(s).Good? ==> s == StmtsText(ParseStmts(s).tree) + ParseStmts(s).rest
    decreases |s|, 2
  {
    if ParseStmts(s).Good? {
      if s[0] == END {
        assert s == [END] + s[1..];
      } else {
        var h := ParseStmt(s);
        var t := ParseStmts(h.rest);
        StmtRead(s);
        StmtsRead(h.rest);
        assert StmtText(h.tree) + (StmtsText(t.tree) + t.rest) == StmtText(h.tree) + StmtsText(t.tree) + t.rest;
      }
    }
  }

  // ---- what it means ----

  /** A column value; SQL comparisons with null are neither true nor false. */
  datatype Datum = Missing | Datum(v: int)
  datatype Truth = True | False | Maybe

  type Row = map<Name, Datum>
  type Database = map<Name, seq<Row>>

  function Column(row: Row, n: Name): Datum { if n in row then row[n] else Missing }

  function With(row: Row, n: Name, d: Datum): Row { map c: Name | c in row.Keys + {n} :: if c == n then d else row[c] }

  /** The records the contexts stand for: in a trigger, 0 is the old version of the changed record and 1 the new. */
  type Contexts = map<byte, Row>

  function Fetch(v: Value, env: Contexts): Datum
  {
    match v
    case NullValue => Missing
    case Field(ctx, n) => if ctx in env then Column(env[ctx], n) else Missing
  }

  function Same(a: Datum, b: Datum): Truth
  {
    if a.Missing? || b.Missing? then Maybe else if a.v == b.v then True else False
  }

  function Not(t: Truth): Truth { match t case True => False case False => True case Maybe => Maybe }

  function Both(a: Truth, b: Truth): Truth
  {
    if a == False || b == False then False else if a == True && b == True then True else Maybe
  }

  function Either(a: Truth, b: Truth): Truth
  {
    if a == True || b == True then True else if a == False && b == False then False else Maybe
  }

  function Eval(b: Bool, env: Contexts): Truth
  {
    match b
    case Eql(x, y) => Same(Fetch(x, env), Fetch(y, env))
    case Neq(x, y) => Not(Same(Fetch(x, env), Fetch(y, env)))
    case And(x, y) => Both(Eval(x, env), Eval(y, env))
    case Or(x, y) => Either(Eval(x, env), Eval(y, env))
  }

  /** Assignments inside a modify, to the record one of the contexts stands for. */
  function Change(s: Stmt, env: Contexts): (r: Contexts)
    ensures r.Keys == env.Keys
    decreases s, 0
  {
    match s
    case Assign(from, to) =>
      if to.Field? && to.ctx in env then env[to.ctx := With(env[to.ctx], to.name, Fetch(from, env))] else env
    case Block(ss) => Changes(ss, env)
    case _ => env
  }

  function Changes(ss: Stmts, env: Contexts): (r: Contexts)
    ensures r.Keys == env.Keys
    decreases ss, 1
  {
    match ss
    case Nil => env
    case Cons(s, rest) => Changes(rest, Change(s, env))
  }

  /** What the body of a loop over `ctx` leaves of the current row: its new version, or nothing once erased. */
  function Visit(s: Stmt, ctx: byte, env: Contexts): seq<Row>
    requires ctx in env
  {
    match s
    case Modify(org, new_, change) =>
      if org == ctx then [Change(change, env[new_ := env[org]])[new_]] else [env[ctx]]
    case Erase(c) => if c == ctx then [] else [env[ctx]]
    case _ => [env[ctx]]
  }

  /** The rows for which the boolean is true are visited, the others stay. */
  function Sweep(ctx: byte, cond: Bool, each: Stmt, env: Contexts, rows: seq<Row>): seq<Row>
  {
    if rows == [] then []
    else
      var here := env[ctx := rows[0]];
      var left := if Eval(cond, here) == True then Visit(each, ctx, here) else [rows[0]];
      left + Sweep(ctx, cond, each, env, rows[1..])
  }

  function Run(s: Stmt, env: Contexts, db: Database): Database
    decreases s, 0
  {
    match s
    case If(c, yes) => if Eval(c, env) == True then Run(yes, env, db) else db
    case IfElse(c, yes, no) => if Eval(c, env) == True then Run(yes, env, db) else Run(no, env, db)
    case Block(ss) => RunAll(ss, env, db)
    case For(rel, ctx, cond, each) => if rel in db then db[rel := Sweep(ctx, cond, each, env, db[rel])] else db
    case _ => db
  }

  function RunAll(ss: Stmts, env: Contexts, db: Database): Database
    decreases ss, 1
  {
    match ss
    case Nil => db
    case Cons(s, rest) => RunAll(rest, env, Run(s, env, db))
  }
}
