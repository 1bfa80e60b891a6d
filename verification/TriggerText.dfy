/**
 The referential-action triggers of dsql/ddl.c: the trees they stand for, the bytes of a trigger
 definition, and the routines that emit those bytes into a request's buffer.
 */
module TriggerText {

  import opened Bytes
  import opened Blr

  const TRG_BLR: byte := 111
  const POST_MODIFY: byte := 4
  const POST_ERASE: byte := 6

  // ---- the trees ----

  /** One column of the foreign key (context 2) equals the old value (context 0) of its primary column. */
  function PairMatch(f: Name, p: Name): Bool { Eql(Field(2, f), Field(0, p)) }

  function KeyMatch(fs: seq<Name>, ps: seq<Name>): Bool
    requires |fs| == |ps| > 0
  {
    if |fs| == 1 then PairMatch(fs[0], ps[0]) else And(PairMatch(fs[0], ps[0]), KeyMatch(fs[1..], ps[1..]))
  }

  /** A primary column differs between the old and the new record. */
  function PairDiffers(p: Name): Bool { Neq(Field(0, p), Field(1, p)) }

  function KeyDiffers(ps: seq<Name>): Bool
    requires |ps| > 0
  {
    if |ps| == 1 then PairDiffers(ps[0]) else Or(PairDiffers(ps[0]), KeyDiffers(ps[1..]))
  }

  function CopyKey(fs: seq<Name>, ps: seq<Name>): Stmts
    requires |fs| == |ps|
  {
    if fs == [] then Nil else Cons(Assign(Field(1, ps[0]), Field(2, fs[0])), CopyKey(fs[1..], ps[1..]))
  }

  function ClearKey(fs: seq<Name>): Stmts
  {
    if fs == [] then Nil else Cons(Assign(NullValue, Field(2, fs[0])), ClearKey(fs[1..]))
  }

  function OnMatches(rel: Name, fs: seq<Name>, ps: seq<Name>, each: Stmt): Stmt
    requires |fs| == |ps| > 0
  {
    For(rel, 2, KeyMatch(fs, ps), each)
  }

  function WhenChanged(ps: seq<Name>, s: Stmt): Stmt
    requires |ps| > 0
  {
    If(KeyDiffers(ps), Block(Cons(Block(Cons(s, Nil)), Nil)))
  }

  function UpdateCascade(rel: Name, fs: seq<Name>, ps: seq<Name>): Stmt
    requires |fs| == |ps| > 0
  {
    WhenChanged(ps, OnMatches(rel, fs, ps, Modify(2, 2, Block(CopyKey(fs, ps)))))
  }

  function DeleteCascade(rel: Name, fs: seq<Name>, ps: seq<Name>): Stmt
    requires |fs| == |ps| > 0
  {
    OnMatches(rel, fs, ps, Erase(2))
  }

  function SetNull(rel: Name, fs: seq<Name>, ps: seq<Name>, onUpdate: bool): Stmt
    requires |fs| == |ps| > 0
  {
    var loop := OnMatches(rel, fs, ps, Modify(2, 2, Block(ClearKey(fs))));
    if onUpdate then WhenChanged(ps, loop) else loop
  }

  // ---- the bytes of a definition ----

  function Number(verb: byte, n: byte): (r: seq<byte>) { [verb, 2, 0, n, 0] }

  /** Everything a trigger definition says before its code, and after it. */
  function Header(kind: byte, rel: Name): (r: seq<byte>)
  {
    [15, 0, 0] + Number(110, kind) + [196] + Number(115, 1) + Number(116, 0) + [50] + Word(|rel|) + rel
  }

  function Trailer(): (r: seq<byte>) { Number(55, 4) + [3] }

  /** The code of a trigger between its length word and whatever follows. */
  function Framed(text: seq<byte>): (r: seq<byte>)
  {
    [TRG_BLR] + Word(|text| + 2) + [VERSION5] + text + [EOC]
  }

  function Definition(kind: byte, rel: Name, tree: Stmt): (r: seq<byte>)
  {
    Header(kind, rel) + Framed(StmtText(tree)) + Trailer()
  }

  /** A definition in the numbers of jrd/ibase.h and jrd/blr.h. */
  lemma DefinitionBytes(kind: byte, rel: Name, text: seq<byte>)
    ensures Header(kind, rel)
         == [15, 0, 0] + [110, 2, 0, kind, 0] + [196] + [115, 2, 0, 1, 0] + [116, 2, 0, 0, 0] + [50] + [|rel|, 0] + rel
    ensures Framed(text) == [111] + Word(|text| + 2) + [5] + text + [76] && Trailer() == [55, 2, 0, 4, 0] + [3]
  {
  }

  // ---- reading a definition back ----

  /** The code as the engine takes it: as many bytes as the length says, a version, one statement, blr_eoc. */
  function ReadCode(s: seq<byte>): (r: Parsed<Stmt>)
  {
    if |s| < 3 || s[0] != TRG_BLR then Bad
    else
      var length: int := s[1] as int + 256 * s[2] as int;
      if |s| < 3 + length then Bad else ParseCode(s[3..3 + length], s[3 + length..])
  }

  function ParseCode(code: seq<byte>, after: seq<byte>): (r: Parsed<Stmt>)
  {
    if code == [] || code[0] != VERSION5 then Bad
    else
      var p := ParseStmt(code[1..]);
      if p.Good? && p.rest == [EOC] then Good(p.tree, after) else Bad
  }

  /** Appending cannot change how an accepted statement was read. */
  lemma {:induction false} Extends(s: seq<byte>, x: seq<byte>)
    ensures var p := ParseStmt(s); p.Good? ==> ParseStmt(s + x) == Good(p.tree, p.rest + x)
  {
    var p := ParseStmt(s);
    if p.Good? {
      StmtRead(s);
      Regroup(StmtText(p.tree), p.rest, x);
      StmtPrinted(p.tree, p.rest + x);
    }
  }

  /** A proper prefix of a statement and blr_eoc does not end in blr_eoc. */
  lemma {:induction false} Truncated(tree: Stmt, cut: seq<byte>, x: seq<byte>)
    requires cut + x == StmtText(tree) + [EOC] && x != []
    ensures ParseStmt(cut).Good? ==> ParseStmt(cut).rest == []
  {
    var p := ParseStmt(cut);
    if p.Good? {
      StmtPrinted(tree, [EOC]);
      Extends(cut, x);
      assert |p.rest + x| == 1;
    }
  }

  lemma Prefixes(text: seq<byte>, k: nat)
    requires 0 < k < |text| + 2
    ensures var cut, tail := ([VERSION5] + text + [EOC])[..k], text + [EOC];
            && cut != [] && cut[1..] == tail[..k - 1] && tail[..k - 1] + tail[k - 1..] == tail && tail[k - 1..] != []
  {
    assert [VERSION5] + text + [EOC] == [VERSION5] + (text + [EOC]);
  }

  /** A proper prefix of a program never passes for one. */
  lemma {:induction false} NoPrefix(tree: Stmt, k: nat, after: seq<byte>)
    requires k < |StmtText(tree)| + 2
    ensures ParseCode(([VERSION5] + StmtText(tree) + [EOC])[..k], after).Bad?
  {
    if k > 0 {
      var tail := StmtText(tree) + [EOC];
      Prefixes(StmtText(tree), k);
      Truncated(tree, tail[..k - 1], tail[k - 1..]);
    }
  }

  lemma {:induction false} CutRule(s: seq<byte>, code: seq<byte>, rest: seq<byte>, length: nat)
    requires |s| >= 3 && s[0] == TRG_BLR && s[1] as int + 256 * s[2] as int == length <= |code|
    requires s[3..] == code + rest
    ensures ReadCode(s) == ParseCode(code[..length], code[length..] + rest)
  {
    assert s[3..3 + length] == s[3..][..length] == code[..length];
    assert s[3 + length..] == s[3..][length..] == code[length..] + rest;
  }

  /** The length word cuts the code at its length modulo the word size. */
  lemma {:induction false} CutOut(code: seq<byte>, rest: seq<byte>)
    ensures var length := |code| % 0x10000;
            ReadCode([TRG_BLR] + Word(|code|) + (code + rest)) == ParseCode(code[..length], code[length..] + rest)
  {
    Fronted(TRG_BLR, code, rest);
    Regroup([TRG_BLR] + Word(|code|), code, rest);
    CutRule([TRG_BLR] + Word(|code|) + (code + rest), code, rest, |code| % 0x10000);
  }

  lemma {:induction false} WholeCode(tree: Stmt, after: seq<byte>)
    ensures ParseCode([VERSION5] + StmtText(tree) + [EOC], after) == Good(tree, after)
  {
    assert ([VERSION5] + StmtText(tree) + [EOC])[1..] == StmtText(tree) + [EOC];
    StmtPrinted(tree, [EOC]);
  }

  lemma FramedCode(text: seq<byte>, rest: seq<byte>)
    ensures Framed(text) + rest == [TRG_BLR] + Word(|text| + 2) + ([VERSION5] + text + [EOC] + rest)
  {
  }

  /** What the length word leaves of the code is the whole program, or no program at all. */
  lemma {:induction false} CutCode(tree: Stmt, after: seq<byte>)
    ensures var code := [VERSION5] + StmtText(tree) + [EOC];
            ParseCode(code[..|code| % 0x10000], after) == if |code| < 0x10000 then Good(tree, after) else Bad
  {
    var code := [VERSION5] + StmtText(tree) + [EOC];
    if |code| < 0x10000 {
      assert code[..|code| % 0x10000] == code;
      WholeCode(tree, after);
    } else {
      NoPrefix(tree, |code| % 0x10000, after);
    }
  }

  /** The stored length is right, and the code read back, exactly when the code fits the length word. */
  lemma {:induction false} CodeReadsBack(tree: Stmt, rest: seq<byte>)
    ensures ReadCode(Framed(StmtText(tree)) + rest) == if |StmtText(tree)| + 2 < 0x10000 then Good(tree, rest) else Bad
  {
    var code := [VERSION5] + StmtText(tree) + [EOC];
    var after := code[|code| % 0x10000..] + rest;
    FramedCode(StmtText(tree), rest);
    CutOut(code, rest);
    CutCode(tree, after);
    NothingCut(code, rest);
  }

  lemma NothingCut(code: seq<byte>, rest: seq<byte>)
    ensures |code| < 0x10000 ==> code[|code| % 0x10000..] + rest == rest
  {
  }

  /** One clause of a definition: a verb and its counted argument. */
  datatype Clause = Clause(verb: byte, arg: seq<byte>)

  /** The clauses up to the end verb (3); the verb 196 takes no argument. */
  function Clauses(s: seq<byte>): (r: Parsed<seq<Clause>>)
    decreases |s|
  {
    if s == [] then Bad
    else if s[0] == 3 then Good([], s[1..])
    else if s[0] == 196 then After(Clause(196, []), Clauses(s[1..]))
    else if |s| < 3 then Bad
    else
      var length: int := s[1] as int + 256 * s[2] as int;
      if |s| < 3 + length then Bad else After(Clause(s[0], s[3..3 + length]), Clauses(s[3 + length..]))
  }

  function After(c: Clause, p: Parsed<seq<Clause>>): Parsed<seq<Clause>>
  {
    if p.Good? then Good([c] + p.tree, p.rest) else Bad
  }

  lemma {:induction false} ClauseRule(s: seq<byte>, arg: seq<byte>, rest: seq<byte>)
    requires |s| >= 3 && s[0] != 3 && s[0] != 196 && s[1] as int + 256 * s[2] as int == |arg|
    requires s[3..] == arg + rest
    ensures Clauses(s) == After(Clause(s[0], arg), Clauses(rest))
  {
    assert s[3..3 + |arg|] == s[3..][..|arg|] == arg;
    assert s[3 + |arg|..] == s[3..][|arg|..] == rest;
  }

  /** A verb, a count and what they count, followed by anything. */
  lemma Fronted(verb: byte, arg: seq<byte>, rest: seq<byte>)
    ensures var s := [verb] + Word(|arg|) + arg + rest;
            |s| >= 3 && s[0] == verb && s[1] as int + 256 * s[2] as int == |arg| % 0x10000 && s[3..] == arg + rest
  {
    WordValue(|arg|);
    Regroup([verb] + Word(|arg|), arg, rest);
  }

  lemma {:induction false} ReadClause(verb: byte, arg: seq<byte>, rest: seq<byte>)
    requires verb != 3 && verb != 196 && |arg| < 0x10000
    ensures Clauses([verb] + Word(|arg|) + arg + rest) == After(Clause(verb, arg), Clauses(rest))
  {
    Fronted(verb, arg, rest);
    ClauseRule([verb] + Word(|arg|) + arg + rest, arg, rest);
  }

  function ClauseText(c: Clause): (r: seq<byte>)
  {
    if c.verb == 196 then [196] else [c.verb] + Word(|c.arg|) + c.arg
  }

  function ClausesText(cs: seq<Clause>): (r: seq<byte>)
  {
    if cs == [] then [3] else ClauseText(cs[0]) + ClausesText(cs[1..])
  }

  ghost predicate Sendable(c: Clause) { c.verb != 3 && |c.arg| < 0x10000 && (c.verb == 196 ==> c.arg == []) }

  /** Clauses are read back one by one, whatever follows the end verb. */
  lemma {:induction false} ClausesReadBack(cs: seq<Clause>, rest: seq<byte>)
    requires forall i :: 0 <= i < |cs| ==> Sendable(cs[i])
    ensures Clauses(ClausesText(cs) + rest) == Good(cs, rest)
  {
    if cs != [] {
      ClausesReadBack(cs[1..], rest);
      FirstReadBack(cs[0], ClausesText(cs[1..]) + rest);
      TextOfFirst(cs, rest);
    }
  }

  lemma TextOfFirst(cs: seq<Clause>, rest: seq<byte>)
    requires cs != []
    ensures ClausesText(cs) + rest == ClauseText(cs[0]) + (ClausesText(cs[1..]) + rest) && cs == [cs[0]] + cs[1..]
  {
    Regroup(ClauseText(cs[0]), ClausesText(cs[1..]), rest);
  }

  lemma FirstReadBack(c: Clause, more: seq<byte>)
    requires Sendable(c)
    ensures Clauses(ClauseText(c) + more) == After(c, Clauses(more))
  {
    if c.verb == 196 {
      ReadFlag(more);
    } else {
      ReadClause(c.verb, c.arg, more);
    }
  }

  lemma {:induction false} ReadFlag(rest: seq<byte>)
    ensures Clauses([196] + rest) == After(Clause(196, []), Clauses(rest))
  {
  }

  /** What a definition says: a nameless trigger of this kind on this relation, first in sequence, active, with this code. */
  function Saying(kind: byte, rel: Name, code: seq<byte>): seq<Clause>
  {
    [Clause(15, []), Clause(110, [kind, 0]), Clause(196, []), Clause(115, [1, 0]), Clause(116, [0, 0]), Clause(50, rel),
     Clause(TRG_BLR, code), Clause(55, [4, 0])]
  }

  lemma {:induction false} ClausesCons(c: Clause, cs: seq<Clause>)
    ensures ClausesText([c] + cs) == ClauseText(c) + ClausesText(cs)
  {
    assert ([c] + cs)[1..] == cs;
  }

  /** Three clauses in front of others. */
  lemma {:induction false} ThreeText(a: Clause, b: Clause, c: Clause, cs: seq<Clause>)
    ensures ClausesText([a, b, c] + cs) == ClauseText(a) + (ClauseText(b) + (ClauseText(c) + ClausesText(cs)))
  {
    ClausesCons(c, cs);
    ClausesCons(b, [c] + cs);
    ClausesCons(a, [b] + ([c] + cs));
    assert [a, b, c] + cs == [a] + ([b] + ([c] + cs));
  }

  lemma {:induction false} TwoText(a: Clause, b: Clause)
    ensures ClausesText([a, b]) == ClauseText(a) + (ClauseText(b) + [3])
  {
    ClausesCons(b, []);
    ClausesCons(a, [b]);
    assert [b] + [] == [b] && [a] + [b] == [a, b];
  }

  lemma {:induction false} EightText(c1: Clause, c2: Clause, c3: Clause, c4: Clause, c5: Clause, c6: Clause, c7: Clause, c8: Clause)
    ensures ClausesText([c1, c2, c3, c4, c5, c6, c7, c8])
         == (ClauseText(c1) + ClauseText(c2) + ClauseText(c3) + ClauseText(c4) + ClauseText(c5) + ClauseText(c6))
            + ClauseText(c7) + (ClauseText(c8) + [3])
  {
    TwoText(c7, c8);
    ThreeText(c4, c5, c6, [c7, c8]);
    ThreeText(c1, c2, c3, [c4, c5, c6] + [c7, c8]);
    assert [c1, c2, c3] + ([c4, c5, c6] + [c7, c8]) == [c1, c2, c3, c4, c5, c6, c7, c8];
    Gather(ClauseText(c1), ClauseText(c2), ClauseText(c3), ClauseText(c4), ClauseText(c5), ClauseText(c6), ClauseText(c7), ClauseText(c8));
  }

  lemma NumberText(verb: byte, n: byte)
    requires verb != 196
    ensures ClauseText(Clause(verb, [n, 0])) == Number(verb, n)
  {
  }

  lemma HeaderText(kind: byte, rel: Name)
    ensures Header(kind, rel)
         == ClauseText(Clause(15, [])) + ClauseText(Clause(110, [kind, 0])) + ClauseText(Clause(196, []))
            + ClauseText(Clause(115, [1, 0])) + ClauseText(Clause(116, [0, 0])) + ClauseText(Clause(50, rel))
  {
    assert ClauseText(Clause(15, [])) == [15, 0, 0];
    NumberText(110, kind);
    NumberText(115, 1);
    NumberText(116, 0);
    var front := [15, 0, 0] + Number(110, kind) + [196] + Number(115, 1) + Number(116, 0);
    Chain3(front, [50], Word(|rel|), rel);
  }

  lemma {:induction false} SayingText(kind: byte, rel: Name, text: seq<byte>)
    ensures ClausesText(Saying(kind, rel, [VERSION5] + text + [EOC])) == Header(kind, rel) + Framed(text) + Trailer()
  {
    var code := [VERSION5] + text + [EOC];
    EightText(Clause(15, []), Clause(110, [kind, 0]), Clause(196, []), Clause(115, [1, 0]),
              Clause(116, [0, 0]), Clause(50, rel), Clause(TRG_BLR, code), Clause(55, [4, 0]));
    HeaderText(kind, rel);
    NumberText(55, 4);
    FramedText(text);
  }

  lemma FramedText(text: seq<byte>)
    ensures ClauseText(Clause(TRG_BLR, [VERSION5] + text + [EOC])) == Framed(text)
  {
    Chain3([TRG_BLR] + Word(|text| + 2), [VERSION5], text, [EOC]);
  }

  lemma Gather(t1: seq<byte>, t2: seq<byte>, t3: seq<byte>, t4: seq<byte>, t5: seq<byte>, t6: seq<byte>, t7: seq<byte>, t8: seq<byte>)
    ensures t1 + (t2 + (t3 + (t4 + (t5 + (t6 + (t7 + (t8 + [3]))))))) == (t1 + t2 + t3 + t4 + t5 + t6) + t7 + (t8 + [3])
  {
  }

  /** A definition that fits its length word is taken apart into exactly these clauses, and its code is the tree's. */
  lemma {:induction false} DefinitionReadsBack(kind: byte, rel: Name, tree: Stmt, rest: seq<byte>)
    requires |StmtText(tree)| + 2 < 0x10000
    ensures var code := [VERSION5] + StmtText(tree) + [EOC];
            && Clauses(Definition(kind, rel, tree) + rest) == Good(Saying(kind, rel, code), rest)
            && ParseCode(code, []) == Good(tree, [])
  {
    SayingText(kind, rel, StmtText(tree));
    ClausesReadBack(Saying(kind, rel, [VERSION5] + StmtText(tree) + [EOC]), rest);
    WholeCode(tree, []);
  }

  /** gds__vax_integer: low byte first, the last one with its sign. */
  function VaxInteger(b: seq<byte>): int
  {
    if b == [] then 0
    else if |b| == 1 then (if b[0] < 128 then b[0] else b[0] - 256)
    else b[0] + 256 * VaxInteger(b[1..])
  }

  /** What DYN_define_trigger has put into the columns of RDB$TRIGGERS. */
  datatype Columns = Columns(kind: int, sequence: int, inactive: int, relation: seq<byte>)

  const NO_COLUMNS := Columns(0, 0, 0, [])

  /** The column a clause sets. */
  function Hear(t: Columns, c: Clause): Columns
  {
    if c.verb == 110 then t.(kind := VaxInteger(c.arg))
    else if c.verb == 115 then t.(sequence := VaxInteger(c.arg))
    else if c.verb == 116 then t.(inactive := VaxInteger(c.arg))
    else if c.verb == 50 then t.(relation := c.arg)
    else t
  }

  function HearAll(t: Columns, cs: seq<Clause>): Columns
    decreases |cs|
  {
    if cs == [] then t else HearAll(Hear(t, cs[0]), cs[1..])
  }

  /** The argument of the first code clause, and the columns set before it. */
  datatype Found = NoCode | Code(columns: Columns, bytes: seq<byte>)

  function FindCode(s: seq<byte>, t: Columns): (r: Found)
    decreases |s|
  {
    if s == [] || s[0] == 3 then NoCode
    else if s[0] == 196 then FindCode(s[1..], t)
    else if |s| < 3 then NoCode
    else
      var length: int := s[1] as int + 256 * s[2] as int;
      if |s| < 3 + length then NoCode
      else if s[0] == TRG_BLR then Code(t, s[3..3 + length])
      else FindCode(s[3 + length..], Hear(t, Clause(s[0], s[3..3 + length])))
  }

  lemma {:induction false} FindRule(s: seq<byte>, arg: seq<byte>, rest: seq<byte>, length: nat, t: Columns)
    requires |s| >= 3 && s[0] != 3 && s[0] != 196 && s[1] as int + 256 * s[2] as int == length <= |arg|
    requires s[3..] == arg + rest
    ensures s[0] == TRG_BLR ==> FindCode(s, t) == Code(t, arg[..length])
    ensures s[0] != TRG_BLR && length == |arg| ==> FindCode(s, t) == FindCode(rest, Hear(t, Clause(s[0], arg)))
  {
    assert s[3..3 + length] == s[3..][..length] == arg[..length];
    if length == |arg| {
      assert s[3 + length..] == s[3..][length..] == rest;
      assert arg[..length] == arg;
    }
  }

  /** Past one clause that is not code, or into the one that is. */
  lemma {:induction false} FindPast(c: Clause, rest: seq<byte>, t: Columns)
    requires c.verb == TRG_BLR || Sendable(c)
    ensures c.verb == TRG_BLR ==> FindCode(ClauseText(c) + rest, t) == Code(t, c.arg[..|c.arg| % 0x10000])
    ensures c.verb != TRG_BLR ==> FindCode(ClauseText(c) + rest, t) == FindCode(rest, Hear(t, c))
  {
    if c.verb == 196 {
      Behind([196], rest);
    } else {
      Fronted(c.verb, c.arg, rest);
      FindRule(ClauseText(c) + rest, c.arg, rest, |c.arg| % 0x10000, t);
    }
  }

  /** The code clause at `k` is found behind the others, cut at its length modulo the word size. */
  lemma {:induction false} CodeFound(cs: seq<Clause>, k: nat, rest: seq<byte>, t: Columns)
    requires k < |cs| && cs[k].verb == TRG_BLR && forall i :: 0 <= i < k ==> Sendable(cs[i]) && cs[i].verb != TRG_BLR
    ensures FindCode(ClausesText(cs) + rest, t) == Code(HearAll(t, cs[..k]), cs[k].arg[..|cs[k].arg| % 0x10000])
  {
    Regroup(ClauseText(cs[0]), ClausesText(cs[1..]), rest);
    FindPast(cs[0], ClausesText(cs[1..]) + rest, t);
    if k > 0 {
      CodeFound(cs[1..], k - 1, rest, Hear(t, cs[0]));
      assert cs[..k][0] == cs[0] && cs[..k][1..] == cs[1..][..k - 1];
    }
  }

  /** A number in two bytes. */
  lemma NumberHeard(n: byte)
    ensures VaxInteger([n, 0]) == n
  {
    assert [n, 0][1..] == [0];
  }

  lemma {:induction false} HearTwo(t: Columns, a: Clause, b: Clause, cs: seq<Clause>)
    ensures HearAll(t, [a, b] + cs) == HearAll(Hear(Hear(t, a), b), cs)
  {
    assert ([a, b] + cs)[1..] == [b] + cs && ([b] + cs)[1..] == cs;
  }

  /** What the clauses in front of the code say. */
  lemma {:induction false} Heard(kind: byte, rel: Name, code: seq<byte>)
    ensures HearAll(NO_COLUMNS, Saying(kind, rel, code)[..6]) == Columns(kind, 1, 0, rel)
  {
    var cs := Saying(kind, rel, code);
    assert cs[..6] == [cs[0], cs[1]] + ([cs[2], cs[3]] + ([cs[4], cs[5]] + []));
    HearTwo(NO_COLUMNS, cs[0], cs[1], [cs[2], cs[3]] + ([cs[4], cs[5]] + []));
    HearTwo(Hear(Hear(NO_COLUMNS, cs[0]), cs[1]), cs[2], cs[3], [cs[4], cs[5]] + []);
    HearTwo(Hear(Hear(Hear(Hear(NO_COLUMNS, cs[0]), cs[1]), cs[2]), cs[3]), cs[4], cs[5], []);
    NumberHeard(kind);
    NumberHeard(1);
    NumberHeard(0);
  }

  /** The code found in a definition parses to its tree if it fits the length word, and to nothing otherwise. */
  lemma {:induction false} DefinitionCode(kind: byte, rel: Name, tree: Stmt, rest: seq<byte>)
    ensures var f := FindCode(Definition(kind, rel, tree) + rest, NO_COLUMNS);
            && f.Code? && f.columns == Columns(kind, 1, 0, rel)
            && ParseCode(f.bytes, []) == if |StmtText(tree)| + 2 < 0x10000 then Good(tree, []) else Bad
  {
    var code := [VERSION5] + StmtText(tree) + [EOC];
    SayingText(kind, rel, StmtText(tree));
    CodeFound(Saying(kind, rel, code), 6, rest, NO_COLUMNS);
    Heard(kind, rel, code);
    CutCode(tree, []);
  }

  // ---- emission ----

  /** C's (SSHORT) cast. */
  function Signed16(n: int): int
  {
    var m := n % 0x10000;
    if m < 0x8000 then m else m - 0x10000
  }

  /** What is still to be emitted of a comparison list from some column on: the first operator is already out. */
  function MatchRest(fs: seq<Name>, ps: seq<Name>): (r: seq<byte>)
    requires |fs| == |ps|
  {
    if fs == [] then []
    else BoolText(PairMatch(fs[0], ps[0])) + (if |fs| > 2 then [AND] else []) + MatchRest(fs[1..], ps[1..])
  }

  function DiffersRest(ps: seq<Name>): (r: seq<byte>)
  {
    if ps == [] then []
    else BoolText(PairDiffers(ps[0])) + (if |ps| > 2 then [OR] else []) + DiffersRest(ps[1..])
  }

  lemma {:induction false} MatchText(fs: seq<Name>, ps: seq<Name>)
    requires |fs| == |ps| > 0
    ensures BoolText(KeyMatch(fs, ps)) == (if |fs| > 1 then [AND] else []) + MatchRest(fs, ps)
  {
    if |fs| > 1 {
      MatchText(fs[1..], ps[1..]);
      Regroup(BoolText(PairMatch(fs[0], ps[0])), if |fs| > 2 then [AND] else [], MatchRest(fs[1..], ps[1..]));
    }
  }

  lemma {:induction false} DiffersText(ps: seq<Name>)
    requires |ps| > 0
    ensures BoolText(KeyDiffers(ps)) == (if |ps| > 1 then [OR] else []) + DiffersRest(ps)
  {
    if |ps| > 1 {
      DiffersText(ps[1..]);
      Regroup(BoolText(PairDiffers(ps[0])), if |ps| > 2 then [OR] else [], DiffersRest(ps[1..]));
    }
  }

  /** The part of a request that holds the generated definition. */
  class Request {
    var blr: seq<byte>
    var base: nat

    method Stuff(b: byte)
      modifies this`blr
      ensures blr == old(blr) + [b]
    {
      blr := blr + [b];
    }

    method StuffWord(n: nat)
      modifies this`blr
      ensures blr == old(blr) + Word(n)
    {
      Stuff(n % 256);
      Stuff(n / 256 % 256);
    }

    method PutNumber(verb: byte, n: byte)
      requires verb != 0
      modifies this`blr
      ensures blr == old(blr) + Number(verb, n)
    {
      Stuff(verb);
      StuffWord(2);
      StuffWord(n);
    }

    /** A string under a DYN verb is counted in a word, inside BLR (verb 0) in a byte. */
    method PutCString(verb: byte, name: Name)
      requires 0 !in name
      modifies this`blr
      ensures blr == old(blr) + (if verb == 0 then NameText(name) else [verb] + Word(|name|) + name)
    {
      if verb != 0 {
        Stuff(verb);
        StuffWord(|name|);
      } else {
        Stuff(|name| as byte);
      }
      ghost var start := blr;
      var i := 0;
      while i < |name|
        invariant i <= |name| && blr == start + name[..i]
      {
        Stuff(name[i]);
        assert name[..i + 1] == name[..i] + [name[i]];
        i := i + 1;
      }
      assert name[..i] == name;
    }

    method StuffField(ctx: byte, name: Name)
      requires 0 !in name
      modifies this`blr
      ensures blr == old(blr) + ValueText(Field(ctx, name))
    {
      Stuff(FIELD);
      Stuff(ctx);
      assert blr == old(blr) + [FIELD, ctx];
      PutCString(0, name);
      Regroup(old(blr), [FIELD, ctx], NameText(name));
    }

    /** An operator with two fields. */
    method StuffFields(op: byte, c1: byte, n1: Name, c2: byte, n2: Name)
      requires 0 !in n1 && 0 !in n2
      modifies this`blr
      ensures blr == old(blr) + ([op] + (ValueText(Field(c1, n1)) + ValueText(Field(c2, n2))))
    {
      ghost var x, y := ValueText(Field(c1, n1)), ValueText(Field(c2, n2));
      Stuff(op);
      StuffField(c1, n1);
      StuffField(c2, n2);
      Chain3(old(blr), [op], x, y);
    }

    method BeginBlr(verb: byte)
      requires verb != 0
      modifies this
      ensures blr == old(blr) + [verb, 0, 0, VERSION5] && base == |old(blr)| + 1
    {
      Stuff(verb);
      base := |blr|;
      StuffWord(0);
      Stuff(VERSION5);
    }

    /** Overwrites the two bytes at `base` with the number of bytes after them. */
    method EndBlr()
      requires base + 2 <= |blr|
      modifies this`blr
      ensures blr == Patched(old(blr), base)
    {
      Stuff(EOC);
      var length := (Signed16(|blr| - base) - 2) % 0x10000;
      PatchLength(old(blr), base, length);
      blr := blr[base := length % 256];
      blr := blr[base + 1 := length / 256];
    }

    method StuffMatching(fs: seq<Name>, ps: seq<Name>)
      requires |fs| == |ps| > 0 && forall n :: n in fs + ps ==> 0 !in n
      modifies this`blr
      ensures blr == old(blr) + ([BOOLEAN] + (BoolText(KeyMatch(fs, ps)) + [END]))
    {
      MatchText(fs, ps);
      Stuff(BOOLEAN);
      ghost var start := blr;
      if |ps| > 1 { Stuff(AND); }
      ghost var done := if |ps| > 1 then [AND] else [];
      var i := 0;
      assert fs[i..] == fs && ps[i..] == ps;
      while i < |fs|
        invariant i <= |fs|
        invariant blr == start + done
        invariant done + MatchRest(fs[i..], ps[i..]) == BoolText(KeyMatch(fs, ps))
      {
        assert fs[i] in fs + ps && ps[i] in fs + ps;
        ghost var pair := BoolText(PairMatch(fs[i], ps[i]));
        ghost var op := if |fs[i..]| > 2 then [AND] else [];
        MatchStep(fs, ps, i, done);
        StuffFields(EQL, 2, fs[i], 0, ps[i]);
        Chain3(start, done, pair, op);
        i := i + 1;
        if |ps| - i >= 2 { Stuff(AND); }
        done := done + (pair + op);
      }
      Stuff(END);
      Chain3(old(blr), [BOOLEAN], BoolText(KeyMatch(fs, ps)), [END]);
    }

    method StuffFiringCond(ps: seq<Name>)
      requires |ps| > 0 && forall n :: n in ps ==> 0 !in n
      modifies this`blr
      ensures blr == old(blr) + ([IF] + BoolText(KeyDiffers(ps)))
    {
      DiffersText(ps);
      Stuff(IF);
      ghost var start := blr;
      if |ps| > 1 { Stuff(OR); }
      ghost var done := if |ps| > 1 then [OR] else [];
      var i := 0;
      assert ps[i..] == ps;
      while i < |ps|
        invariant i <= |ps|
        invariant blr == start + done
        invariant done + DiffersRest(ps[i..]) == BoolText(KeyDiffers(ps))
      {
        assert ps[i] in ps;
        ghost var pair := BoolText(PairDiffers(ps[i]));
        ghost var op := if |ps[i..]| > 2 then [OR] else [];
        DiffersStep(ps, i, done);
        StuffFields(NEQ, 0, ps[i], 1, ps[i]);
        Chain3(start, done, pair, op);
        i := i + 1;
        if |ps| - i >= 2 { Stuff(OR); }
        done := done + (pair + op);
      }
      Regroup(old(blr), [IF], BoolText(KeyDiffers(ps)));
    }

    /** The loop over the rows of `rel` that hold the old key, up to its body. */
    method StuffLoop(rel: Name, fs: seq<Name>, ps: seq<Name>)
      requires 0 !in rel && |fs| == |ps| > 0 && forall n :: n in fs + ps ==> 0 !in n
      modifies this`blr
      ensures blr == old(blr) + ([FOR] + RseText(rel, 2, KeyMatch(fs, ps)))
    {
      Stuff(FOR);
      Stuff(RSE);
      Stuff(1);
      Stuff(RELATION);
      assert blr == old(blr) + [FOR, RSE, 1, RELATION];
      PutCString(0, rel);
      Stuff(2);
      StuffMatching(fs, ps);
      LoopText(old(blr), NameText(rel), BoolText(KeyMatch(fs, ps)));
    }

    method PutHeader(kind: byte, rel: Name)
      requires 0 !in rel
      modifies this`blr
      ensures blr == old(blr) + Header(kind, rel)
    {
      PutCString(15, []);
      PutNumber(110, kind);
      Stuff(196);
      PutNumber(115, 1);
      PutNumber(116, 0);
      PutCString(50, rel);
    }

    method PutTrailer()
      modifies this`blr
      ensures blr == old(blr) + Trailer()
    {
      PutNumber(55, 4);
      Stuff(3);
    }

    /** blr_modify, its two contexts and the start of its block. */
    method StuffModify()
      modifies this`blr
      ensures blr == old(blr) + [MODIFY, 2, 2, BEGIN]
    {
      Stuff(MODIFY);
      Stuff(2);
      Stuff(2);
      Stuff(BEGIN);
    }

    method StuffCopies(fs: seq<Name>, ps: seq<Name>)
      requires |fs| == |ps| > 0 && forall n :: n in fs + ps ==> 0 !in n
      modifies this`blr
      ensures blr == old(blr) + StmtText(Modify(2, 2, Block(CopyKey(fs, ps))))
    {
      StuffModify();
      ghost var start, done := blr, [];
      var i := 0;
      assert fs[i..] == fs && ps[i..] == ps;
      while i < |fs|
        invariant i <= |fs|
        invariant blr == start + done
        invariant done + StmtsText(CopyKey(fs[i..], ps[i..])) == StmtsText(CopyKey(fs, ps))
      {
        assert fs[i] in fs + ps && ps[i] in fs + ps;
        ghost var one := StmtText(Assign(Field(1, ps[i]), Field(2, fs[i])));
        CopyStep(fs, ps, i, done);
        StuffFields(ASSIGNMENT, 1, ps[i], 2, fs[i]);
        Regroup(start, done, one);
        i := i + 1;
        done := done + one;
      }
      Stuff(END);
      Regroup(start, done, [END]);
      ModifyBlock(old(blr), CopyKey(fs, ps));
    }

    method StuffNulls(fs: seq<Name>)
      requires |fs| > 0 && forall n :: n in fs ==> 0 !in n
      modifies this`blr
      ensures blr == old(blr) + StmtText(Modify(2, 2, Block(ClearKey(fs))))
    {
      StuffModify();
      ghost var start, done := blr, [];
      var i := 0;
      assert fs[i..] == fs;
      while i < |fs|
        invariant i <= |fs|
        invariant blr == start + done
        invariant done + StmtsText(ClearKey(fs[i..])) == StmtsText(ClearKey(fs))
      {
        assert fs[i] in fs;
        ghost var one := StmtText(Assign(NullValue, Field(2, fs[i])));
        ClearStep(fs, i, done);
        StuffNull(fs[i]);
        Regroup(start, done, one);
        i := i + 1;
        done := done + one;
      }
      Stuff(END);
      Regroup(start, done, [END]);
      ModifyBlock(old(blr), ClearKey(fs));
    }

    method StuffNull(f: Name)
      requires 0 !in f
      modifies this`blr
      ensures blr == old(blr) + StmtText(Assign(NullValue, Field(2, f)))
    {
      Stuff(ASSIGNMENT);
      Stuff(NULL);
      StuffField(2, f);
      Chain3(old(blr), [ASSIGNMENT], [NULL], ValueText(Field(2, f)));
    }

    /** The firing condition and the two blocks it guards. */
    method OpenGuard(ps: seq<Name>)
      requires |ps| > 0 && forall n :: n in ps ==> 0 !in n
      modifies this`blr
      ensures blr == old(blr) + GuardText(ps)
    {
      StuffFiringCond(ps);
      Stuff(BEGIN);
      Stuff(BEGIN);
    }

    method CloseGuard()
      modifies this`blr
      ensures blr == old(blr) + [END, END, END]
    {
      Stuff(END);
      Stuff(END);
      Stuff(END);
    }

    /** Closes the code begun at `start`, patches its length and completes the definition. */
    method Finish(ghost start: seq<byte>, ghost text: seq<byte>)
      requires blr == start + [TRG_BLR, 0, 0, VERSION5] + text && base == |start| + 1
      modifies this`blr
      ensures blr == start + Framed(text) + Trailer()
    {
      FrameAdds(start, text);
      EndBlr();
      PutTrailer();
    }

    /** on update cascade */
    method DefineUpdCascade(prim: Name, rel: Name, fs: seq<Name>, ps: seq<Name>)
      requires 0 !in prim && 0 !in rel && |fs| == |ps| > 0 && forall n :: n in fs + ps ==> 0 !in n
      modifies this
      ensures blr == old(blr) + Definition(POST_MODIFY, prim, UpdateCascade(rel, fs, ps))
    {
      PutHeader(POST_MODIFY, prim);
      ghost var start := blr;
      BeginBlr(TRG_BLR);
      ghost var code := blr;
      assert forall n :: n in ps ==> n in fs + ps;
      OpenGuard(ps);
      StuffLoop(rel, fs, ps);
      StuffCopies(fs, ps);
      CloseGuard();
      ghost var change := Modify(2, 2, Block(CopyKey(fs, ps)));
      LoopAndBody(rel, fs, ps, change);
      WhenChangedText(code, ps, [FOR] + RseText(rel, 2, KeyMatch(fs, ps)), StmtText(change), OnMatches(rel, fs, ps, change));
      Finish(start, StmtText(UpdateCascade(rel, fs, ps)));
      Chain3(old(blr), Header(POST_MODIFY, prim), Framed(StmtText(UpdateCascade(rel, fs, ps))), Trailer());
    }

    /** on delete cascade */
    method DefineDelCascade(prim: Name, rel: Name, fs: seq<Name>, ps: seq<Name>)
      requires 0 !in prim && 0 !in rel && |fs| == |ps| > 0 && forall n :: n in fs + ps ==> 0 !in n
      modifies this
      ensures blr == old(blr) + Definition(POST_ERASE, prim, DeleteCascade(rel, fs, ps))
    {
      PutHeader(POST_ERASE, prim);
      ghost var start := blr;
      BeginBlr(TRG_BLR);
      ghost var code := blr;
      StuffLoop(rel, fs, ps);
      StuffErase();
      LoopAndBody(rel, fs, ps, Erase(2));
      Regroup(code, [FOR] + RseText(rel, 2, KeyMatch(fs, ps)), [ERASE, 2]);
      Finish(start, StmtText(DeleteCascade(rel, fs, ps)));
      Chain3(old(blr), Header(POST_ERASE, prim), Framed(StmtText(DeleteCascade(rel, fs, ps))), Trailer());
    }

    method StuffErase()
      modifies this`blr
      ensures blr == old(blr) + [ERASE, 2]
    {
      Stuff(ERASE);
      Stuff(2);
    }

    /** on update set null, on delete set null */
    method DefineSetNull(prim: Name, rel: Name, fs: seq<Name>, ps: seq<Name>, onUpdate: bool)
      requires 0 !in prim && 0 !in rel && |fs| == |ps| > 0 && forall n :: n in fs + ps ==> 0 !in n
      modifies this
      ensures blr == old(blr) + Definition(if onUpdate then POST_MODIFY else POST_ERASE, prim, SetNull(rel, fs, ps, onUpdate))
    {
      var kind := if onUpdate then POST_MODIFY else POST_ERASE;
      PutHeader(kind, prim);
      ghost var start := blr;
      BeginBlr(TRG_BLR);
      ghost var code := blr;
      assert forall n :: n in ps || n in fs ==> n in fs + ps;
      if onUpdate { OpenGuard(ps); }
      StuffLoop(rel, fs, ps);
      StuffNulls(fs);
      if onUpdate { CloseGuard(); }
      ghost var change := Modify(2, 2, Block(ClearKey(fs)));
      ghost var loop := [FOR] + RseText(rel, 2, KeyMatch(fs, ps));
      LoopAndBody(rel, fs, ps, change);
      if onUpdate {
        WhenChangedText(code, ps, loop, StmtText(change), OnMatches(rel, fs, ps, change));
      } else {
        Regroup(code, loop, StmtText(change));
      }
      Finish(start, StmtText(SetNull(rel, fs, ps, onUpdate)));
      Chain3(old(blr), Header(kind, prim), Framed(StmtText(SetNull(rel, fs, ps, onUpdate))), Trailer());
    }
  }

  // ---- the texts put together ----

  lemma Chain3(a: seq<byte>, b: seq<byte>, c: seq<byte>, d: seq<byte>)
    ensures a + b + c + d == a + (b + (c + d))
    ensures a + b + c + d == a + (b + c + d)
  {
  }

  function GuardText(ps: seq<Name>): seq<byte>
    requires |ps| > 0
  {
    [IF] + BoolText(KeyDiffers(ps)) + [BEGIN, BEGIN]
  }

  lemma {:induction false} MatchStep(fs: seq<Name>, ps: seq<Name>, i: nat, done: seq<byte>)
    requires |fs| == |ps| && i < |fs|
    ensures var pair, op := BoolText(PairMatch(fs[i], ps[i])), if |fs[i..]| > 2 then [AND] else [];
            done + MatchRest(fs[i..], ps[i..]) == done + (pair + op) + MatchRest(fs[i + 1..], ps[i + 1..])
  {
    assert fs[i..][1..] == fs[i + 1..] && ps[i..][1..] == ps[i + 1..];
  }

  lemma {:induction false} DiffersStep(ps: seq<Name>, i: nat, done: seq<byte>)
    requires i < |ps|
    ensures var pair, op := BoolText(PairDiffers(ps[i])), if |ps[i..]| > 2 then [OR] else [];
            done + DiffersRest(ps[i..]) == done + (pair + op) + DiffersRest(ps[i + 1..])
  {
    assert ps[i..][1..] == ps[i + 1..];
  }

  lemma {:induction false} CopyStep(fs: seq<Name>, ps: seq<Name>, i: nat, done: seq<byte>)
    requires |fs| == |ps| && i < |fs|
    ensures done + StmtsText(CopyKey(fs[i..], ps[i..]))
         == done + StmtText(Assign(Field(1, ps[i]), Field(2, fs[i]))) + StmtsText(CopyKey(fs[i + 1..], ps[i + 1..]))
  {
    assert fs[i..][1..] == fs[i + 1..] && ps[i..][1..] == ps[i + 1..];
  }

  lemma {:induction false} ClearStep(fs: seq<Name>, i: nat, done: seq<byte>)
    requires i < |fs|
    ensures done + StmtsText(ClearKey(fs[i..]))
         == done + StmtText(Assign(NullValue, Field(2, fs[i]))) + StmtsText(ClearKey(fs[i + 1..]))
  {
    assert fs[i..][1..] == fs[i + 1..];
  }

  lemma LoopText(start: seq<byte>, name: seq<byte>, cond: seq<byte>)
    ensures start + [FOR, RSE, 1, RELATION] + name + [2] + ([BOOLEAN] + (cond + [END]))
         == start + ([FOR] + ([RSE, 1, RELATION] + (name + ([2, BOOLEAN] + (cond + [END])))))
  {
  }

  lemma {:induction false} LoopAndBody(rel: Name, fs: seq<Name>, ps: seq<Name>, each: Stmt)
    requires |fs| == |ps| > 0
    ensures StmtText(OnMatches(rel, fs, ps, each)) == [FOR] + RseText(rel, 2, KeyMatch(fs, ps)) + StmtText(each)
  {
  }

  lemma {:induction false} ModifyBlock(start: seq<byte>, ss: Stmts)
    ensures start + [MODIFY, 2, 2, BEGIN] + StmtsText(ss) == start + StmtText(Modify(2, 2, Block(ss)))
  {
    assert StmtText(Block(ss)) == [BEGIN] + StmtsText(ss);
  }

  lemma {:induction false} WhenChangedText(code: seq<byte>, ps: seq<Name>, loop: seq<byte>, body: seq<byte>, s: Stmt)
    requires |ps| > 0 && StmtText(s) == loop + body
    ensures code + GuardText(ps) + loop + body + [END, END, END] == code + StmtText(WhenChanged(ps, s))
  {
    var inner, cond := Cons(s, Nil), BoolText(KeyDiffers(ps));
    assert StmtsText(inner) == loop + body + [END];
    assert StmtText(Block(inner)) == [BEGIN] + (loop + body + [END]);
    var outer := Cons(Block(inner), Nil);
    assert StmtsText(outer) == [BEGIN] + (loop + body + [END]) + [END];
    assert StmtText(Block(outer)) == [BEGIN] + ([BEGIN] + (loop + body + [END]) + [END]);
    assert StmtText(WhenChanged(ps, s)) == [IF] + (cond + (StmtText(Block(outer)) + [END]));
    Nested(code, cond, loop, body);
  }

  lemma Nested(code: seq<byte>, cond: seq<byte>, loop: seq<byte>, body: seq<byte>)
    ensures code + ([IF] + cond + [BEGIN, BEGIN]) + loop + body + [END, END, END]
         == code + ([IF] + (cond + ([BEGIN] + ([BEGIN] + (loop + body + [END]) + [END]) + [END])))
  {
  }

  /** The bytes before `base` as they were, the length of what follows, and blr_eoc at the end. */
  function Patched(s: seq<byte>, base: nat): (r: seq<byte>)
    requires base + 2 <= |s|
  {
    s[..base] + Word(|s| - base - 1) + s[base + 2..] + [EOC]
  }

  /** The signed cast and the subtraction leave the true length modulo the word size. */
  lemma LengthBytes(n: nat)
    ensures (Signed16(n + 2) - 2) % 0x10000 == n % 0x10000
  {
    var q, m := n / 0x10000, n % 0x10000;
    assert n == 0x10000 * q + m;
    var k := if m + 2 < 0x10000 then q else q + 1;
    Unique(n + 2, 0x10000, k, n + 2 - 0x10000 * k);
    var x := Signed16(n + 2) - 2;
    var j := if x < 0 then -1 else 0;
    Unique(x, 0x10000, j, x - 0x10000 * j);
  }

  lemma PatchLength(s: seq<byte>, base: nat, length: int)
    requires base + 2 <= |s| && length == (Signed16(|s| + 1 - base) - 2) % 0x10000
    ensures 0 <= length / 256 < 256
    ensures (s + [EOC])[base := length % 256][base + 1 := length / 256] == Patched(s, base)
  {
    LengthBytes(|s| - base - 1);
    WordValue(|s| - base - 1);
    PatchBytes(s, base, length % 256, length / 256);
  }

  lemma PatchBytes(s: seq<byte>, base: nat, lo: byte, hi: byte)
    requires base + 2 <= |s|
    ensures (s + [EOC])[base := lo][base + 1 := hi] == s[..base] + [lo, hi] + s[base + 2..] + [EOC]
  {
  }

  /** The code with its length patched in is the framed code. */
  lemma FrameAdds(start: seq<byte>, text: seq<byte>)
    ensures Patched(start + [TRG_BLR, 0, 0, VERSION5] + text, |start| + 1) == start + Framed(text)
  {
    var s := start + [TRG_BLR, 0, 0, VERSION5] + text;
    assert s[|start| + 3..] == [VERSION5] + text;
    assert s[..|start| + 1] == start + [TRG_BLR];
  }
}
