/**
 Recovery of multi-database transactions that a crash left in limbo (alice/tdr.c): what TDR_analyze
 makes of the states of the subtransactions, and what TDR_reconnect_multiple then does.
 */
module TwoPhase {

  /** tdr_state: the record is missing, prepared, committed, rolled back, out of reach, or not a known code. */
  datatype Tra = Absent | Limbo | Committed | RolledBack | Unknown | Other

  /** The same codes as advice; TRA_limbo would mean that either outcome is possible. */
  datatype Advice = NoAdvice | AdviseLimbo | AdviseCommit | AdviseRollback | AdviseUnknown

  // ---- TDR_analyze ----

  /** A missing first record is taken as committed. */
  function Lead(t: Tra): Tra { if t == Absent then Committed else t }

  /** With first state `lead`, does `t` contradict it (or make no sense at all)? */
  predicate Clashes(lead: Tra, t: Tra)
  {
    || (t == Committed && lead == RolledBack)
    || (t == RolledBack && lead == Committed)
    || t == Other
  }

  /** With first state `lead`, what `t` on its own calls for. */
  function Voice(lead: Tra, t: Tra): Advice
  {
    match t
    case Committed => AdviseCommit
    case RolledBack => AdviseRollback
    case Limbo => if lead == Committed then AdviseCommit else if lead == RolledBack then AdviseRollback else NoAdvice
    case Absent => if lead == Committed then AdviseCommit else if lead == Limbo then AdviseRollback else NoAdvice
    case Unknown => NoAdvice
    case Other => NoAdvice
  }

  /** The last of `ts` that calls for anything. */
  function LastVoice(lead: Tra, ts: seq<Tra>): Advice
  {
    if ts == [] then NoAdvice
    else if Voice(lead, ts[|ts| - 1]) != NoAdvice then Voice(lead, ts[|ts| - 1])
    else LastVoice(lead, ts[..|ts| - 1])
  }

  /** A contradiction silences everything; otherwise the last voice decides; failing that, any unknown. */
  function Verdict(ts: seq<Tra>): Advice
  {
    if ts == [] then NoAdvice
    else if exists i :: 0 < i < |ts| && Clashes(Lead(ts[0]), ts[i]) then NoAdvice
    else if LastVoice(Lead(ts[0]), ts[1..]) != NoAdvice then LastVoice(Lead(ts[0]), ts[1..])
    else if Unknown in ts then AdviseUnknown else NoAdvice
  }

  method Analyze(trans: seq<Tra>) returns (advice: Advice)
    ensures advice == Verdict(trans)
  {
    if trans == [] {
      return NoAdvice;
    }
    var state := trans[0];
    advice := NoAdvice;
    if state == Absent {
      state := Committed;
    } else if state == Unknown {
      advice := AdviseUnknown;
    }
    var i := 1;
    while i < |trans|
      invariant 1 <= i <= |trans| && state == Lead(trans[0])
      invariant forall j :: 0 < j < i ==> !Clashes(state, trans[j])
      invariant advice == if LastVoice(state, trans[1..i]) != NoAdvice then LastVoice(state, trans[1..i])
                          else if Unknown in trans[..i] then AdviseUnknown else NoAdvice
    {
      assert trans[1..i + 1] == trans[1..i] + [trans[i]] && trans[..i + 1] == trans[..i] + [trans[i]];
      match trans[i] {
        case Committed =>
          if state == RolledBack {
            assert Clashes(Lead(trans[0]), trans[i]);
            return NoAdvice;
          }
          advice := AdviseCommit;
        case Limbo =>
          if state == Absent || state == Committed {
            advice := AdviseCommit;
          } else if state == RolledBack {
            advice := AdviseRollback;
          }
        case RolledBack =>
          if state == Committed || state == Absent {
            assert Clashes(Lead(trans[0]), trans[i]);
            return NoAdvice;
          }
          advice := AdviseRollback;
        case Absent =>
          if state == Committed {
            advice := AdviseCommit;
          } else if state == Limbo {
            advice := AdviseRollback;
          }
        case Unknown =>
          if advice == NoAdvice {
            advice := AdviseUnknown;
          }
        case Other =>
          assert Clashes(Lead(trans[0]), trans[i]);
          return NoAdvice;
      }
      i := i + 1;
    }
    assert trans[1..i] == trans[1..] && trans[..i] == trans;
  }

  lemma {:induction false} VoiceHeard(lead: Tra, ts: seq<Tra>) returns (i: int)
    ensures LastVoice(lead, ts) != NoAdvice ==> 0 <= i < |ts| && Voice(lead, ts[i]) == LastVoice(lead, ts)
    ensures LastVoice(lead, ts) == NoAdvice ==> forall j :: 0 <= j < |ts| ==> Voice(lead, ts[j]) == NoAdvice
  {
    if ts == [] {
      i := -1;
    } else {
      i := |ts| - 1;
      if Voice(lead, ts[i]) == NoAdvice {
        var j := VoiceHeard(lead, ts[..i]);
        i := j;
        assert forall j :: 0 <= j < |ts| ==> ts[j] == if j < |ts| - 1 then ts[..|ts| - 1][j] else ts[|ts| - 1];
      }
    }
  }

  /** If every voice in the list says `d`, and there is one, the verdict is `d`. */
  lemma Unanimous(ts: seq<Tra>, d: Advice, w: int)
    requires 0 < w < |ts| && d != NoAdvice && Voice(Lead(ts[0]), ts[w]) == d
    requires forall i :: 0 < i < |ts| ==> !Clashes(Lead(ts[0]), ts[i])
    requires forall i :: 0 < i < |ts| ==> Voice(Lead(ts[0]), ts[i]) in {d, NoAdvice}
    ensures Verdict(ts) == d
  {
    var i := VoiceHeard(Lead(ts[0]), ts[1..]);
    assert ts[1..][w - 1] == ts[w];
    assert LastVoice(Lead(ts[0]), ts[1..]) != NoAdvice;
    assert ts[1..][i] == ts[i + 1];
  }

  /** If nobody calls for anything, the verdict is none, or unknown. */
  lemma Silent(ts: seq<Tra>)
    requires ts != [] && forall i :: 0 < i < |ts| ==> Voice(Lead(ts[0]), ts[i]) == NoAdvice
    requires forall i :: 0 < i < |ts| ==> !Clashes(Lead(ts[0]), ts[i])
    ensures Verdict(ts) == if Unknown in ts then AdviseUnknown else NoAdvice
  {
    NoVoice(Lead(ts[0]), ts[1..]);
  }

  lemma {:induction false} NoVoice(lead: Tra, ts: seq<Tra>)
    requires forall i :: 0 <= i < |ts| ==> Voice(lead, ts[i]) == NoAdvice
    ensures LastVoice(lead, ts) == NoAdvice
  {
    if ts != [] {
      NoVoice(lead, ts[..|ts| - 1]);
    }
  }

  /** A decisive verdict has a voice behind it. */
  lemma Witness(ts: seq<Tra>) returns (w: int)
    requires Verdict(ts) == AdviseCommit || Verdict(ts) == AdviseRollback
    ensures 0 < w < |ts| && Voice(Lead(ts[0]), ts[w]) == Verdict(ts)
    ensures forall i :: 0 < i < |ts| ==> !Clashes(Lead(ts[0]), ts[i])
  {
    var i := VoiceHeard(Lead(ts[0]), ts[1..]);
    w := i + 1;
  }

  /** A state that no outcome explains, next to this first state; a missing first record counts as committed. */
  predicate Contradicts(first: Tra, t: Tra)
  {
    t == Other || (t == Committed && first == RolledBack) || (t == RolledBack && first in {Committed, Absent})
  }

  /** A commit here, or after a committed first one something still in limbo or gone. */
  predicate CallsForCommit(first: Tra, t: Tra)
  {
    t == Committed || (t in {Limbo, Absent} && first in {Committed, Absent})
  }

  /** A rollback here, or something in limbo after a first one rolled back, or something never prepared after a first one in limbo. */
  predicate CallsForRollback(first: Tra, t: Tra)
  {
    t == RolledBack || (t == Limbo && first == RolledBack) || (t == Absent && first == Limbo)
  }

  /**
   The advice for every list: none if a state contradicts the first; otherwise what the last subtransaction
   behind the first that calls for anything calls for; and if none does, unknown as soon as one is unknown.
   */
  lemma VerdictSays(ts: seq<Tra>)
    requires ts != []
    ensures (exists i :: 0 < i < |ts| && Contradicts(ts[0], ts[i])) ==> Verdict(ts) == NoAdvice
    ensures (forall i :: 0 < i < |ts| ==> !Contradicts(ts[0], ts[i])) ==>
              && (Verdict(ts) == AdviseCommit <==> exists i :: && 0 < i < |ts| && CallsForCommit(ts[0], ts[i])
                                                               && forall j :: i < j < |ts| ==> !CallsForRollback(ts[0], ts[j]))
              && (Verdict(ts) == AdviseRollback <==> exists i :: && 0 < i < |ts| && CallsForRollback(ts[0], ts[i])
                                                                 && forall j :: i < j < |ts| ==> !CallsForCommit(ts[0], ts[j]))
              && (Verdict(ts) == AdviseUnknown <==> && Unknown in ts
                                                    && forall i :: 0 < i < |ts| ==> !CallsForCommit(ts[0], ts[i]) && !CallsForRollback(ts[0], ts[i]))
  {
    var lead := Lead(ts[0]);
    var rest := ts[1..];
    assert forall i :: 0 < i < |ts| ==> rest[i - 1] == ts[i];
    assert forall t :: Clashes(lead, t) <==> Contradicts(ts[0], t);
    forall t ensures Voice(lead, t) == AdviseCommit <==> CallsForCommit(ts[0], t) {}
    forall t | !Contradicts(ts[0], t) ensures Voice(lead, t) == AdviseRollback <==> CallsForRollback(ts[0], t) {}
    if forall i :: 0 < i < |ts| ==> !Contradicts(ts[0], ts[i]) {
      var i := LastHeard(lead, rest);
      if i >= 0 {
        assert rest[i] == ts[i + 1];
      }
      EitherNeverAdvised(ts);
    }
  }

  /** The last voice belongs to a place behind which nobody speaks. */
  lemma {:induction false} LastHeard(lead: Tra, ts: seq<Tra>) returns (i: int)
    ensures -1 <= i < |ts| && forall j :: i < j < |ts| ==> Voice(lead, ts[j]) == NoAdvice
    ensures LastVoice(lead, ts) == if i < 0 then NoAdvice else Voice(lead, ts[i])
    ensures i >= 0 ==> Voice(lead, ts[i]) != NoAdvice
  {
    if ts == [] {
      i := -1;
    } else if Voice(lead, ts[|ts| - 1]) != NoAdvice {
      i := |ts| - 1;
    } else {
      i := LastHeard(lead, ts[..|ts| - 1]);
    }
  }

  /** "Either commit or rollback is possible" is never the advice. */
  lemma EitherNeverAdvised(ts: seq<Tra>)
    ensures Verdict(ts) != AdviseLimbo
  {
    if ts != [] {
      var i := VoiceHeard(Lead(ts[0]), ts[1..]);
    }
  }

  // ---- an in-order coordinator and its crash states ----

  datatype Sub = Active | Prepared | Done | Undone

  /** One step of a coordinator that prepares, then commits or rolls back, in the order of the list. */
  ghost predicate CoordinatorStep(s: seq<Sub>, t: seq<Sub>, i: nat)
  {
    && i < |s| == |t| && (forall j :: 0 <= j < |s| && j != i ==> t[j] == s[j])
    && (|| (s[i] == Active && t[i] == Prepared && forall j :: 0 <= j < i ==> s[j] == Prepared)
        || (s[i] == Prepared && t[i] == Done
            && (forall j :: 0 <= j < i ==> s[j] == Done) && (forall j :: i < j < |s| ==> s[j] == Prepared))
        || (s[i] == Prepared && t[i] == Undone && forall j :: 0 <= j < i ==> s[j] == Undone))
  }

  /** The states a run goes through; a crash may strike after any of them. */
  ghost predicate CoordinatorRun(run: seq<seq<Sub>>)
  {
    && run != [] && (forall i :: 0 <= i < |run[0]| ==> run[0][i] == Active)
    && forall k :: 0 <= k < |run| - 1 ==> Steps(run[k], run[k + 1])
  }

  ghost predicate Steps(s: seq<Sub>, t: seq<Sub>)
  {
    exists i :: CoordinatorStep(s, t, i)
  }

  /** Which two states can stand in this order in the list. */
  predicate MayPrecede(a: Sub, b: Sub)
  {
    match a
    case Active => b == Active
    case Prepared => b == Prepared || b == Active
    case Done => b == Done || b == Prepared
    case Undone => b != Done
  }

  ghost predicate InOrder(s: seq<Sub>)
  {
    forall i, j :: 0 <= i < j < |s| ==> MayPrecede(s[i], s[j])
  }

  /** Every crash state is in order. */
  lemma {:induction false} CrashInOrder(run: seq<seq<Sub>>, k: nat)
    requires CoordinatorRun(run) && k < |run|
    ensures InOrder(run[k]) && |run[k]| == |run[0]|
  {
    if k > 0 {
      CrashInOrder(run, k - 1);
      assert Steps(run[k - 1], run[k - 1 + 1]);
      var i :| CoordinatorStep(run[k - 1], run[k], i);
    }
  }

  /** In a crash state the first subtransaction tells which way the coordinator had gone. */
  lemma FirstTells(s: seq<Sub>)
    requires InOrder(s) && s != []
    ensures forall i :: 0 <= i < |s| ==> MayPrecede(s[0], s[i])
    ensures Done in s <==> s[0] == Done
    ensures Undone in s <==> s[0] == Undone
  {
    forall i | 0 <= i < |s| ensures MayPrecede(s[0], s[i]) {
      assert i == 0 || MayPrecede(s[0], s[i]);
    }
    assert s[0] in s;
  }

  /** What a database says of its subtransaction: a commit erases the record or leaves it marked, and a
      database that cannot be reached says nothing. */
  predicate Says(s: Sub, t: Tra)
  {
    match s
    case Active => t == Absent || t == Unknown
    case Prepared => t == Limbo || t == Unknown
    case Done => t == Committed || t == Absent || t == Unknown
    case Undone => t == RolledBack || t == Unknown
  }

  ghost predicate Reports(s: seq<Sub>, view: seq<Tra>)
  {
    |view| == |s| && forall i :: 0 <= i < |s| ==> Says(s[i], view[i])
  }

  lemma NoClash(s: seq<Sub>, view: seq<Tra>)
    requires InOrder(s) && Reports(s, view) && s != [] && s[0] != Active
    ensures forall i :: 0 < i < |view| ==> !Clashes(Lead(view[0]), view[i])
  {
    forall i | 0 < i < |view| ensures !Clashes(Lead(view[0]), view[i]) {
      assert MayPrecede(s[0], s[i]);
    }
  }

  /** Some database holds a description of the transaction, which only a prepare writes.  TDR_analyze is
      called on lists made from such a description alone (MET_get_transaction). */
  ghost predicate Recorded(s: seq<Sub>) { exists i :: 0 <= i < |s| && s[i] != Active }

  lemma RecordedMeansStarted(s: seq<Sub>)
    requires InOrder(s) && Recorded(s)
    ensures s != [] && s[0] != Active
  {
    var i :| 0 <= i < |s| && s[i] != Active;
    assert i > 0 ==> MayPrecede(s[0], s[i]);
  }

  /** Decisive advice that is against what happened. */
  predicate Wrong(s: seq<Sub>, d: Advice)
  {
    || (d == AdviseCommit && Done !in s)
    || (d == AdviseRollback && (Done in s || (Undone !in s && Active !in s)))
  }

  /**
   Whatever the crash point and whichever databases are out of reach, decisive advice follows the truth:
   commit only if some subtransaction committed, rollback only if one was rolled back or never prepared.
   */
  lemma AdviceIsSound(run: seq<seq<Sub>>, view: seq<Tra>)
    requires CoordinatorRun(run) && Reports(run[|run| - 1], view) && Recorded(run[|run| - 1])
    ensures !Wrong(run[|run| - 1], Verdict(view))
  {
    var s := run[|run| - 1];
    CrashInOrder(run, |run| - 1);
    RecordedMeansStarted(s);
    FirstTells(s);
    if Verdict(view) == AdviseCommit || Verdict(view) == AdviseRollback {
      var w := Witness(view);
      assert Says(s[0], view[0]) && Says(s[w], view[w]) && s[w] in s;
    }
  }

  /** A subtransaction in limbo has a record. */
  lemma LimboIsRecorded(s: seq<Sub>, view: seq<Tra>)
    requires Reports(s, view) && Limbo in view
    ensures Recorded(s)
  {
    var i :| 0 <= i < |view| && view[i] == Limbo;
    assert Says(s[i], view[i]);
  }

  /** Some run that looks like this to the tool gets advice against what happened in it. */
  ghost predicate Misleads(view: seq<Tra>) { exists run :: MisledBy(run, view) }

  ghost predicate MisledBy(run: seq<seq<Sub>>, view: seq<Tra>)
  {
    CoordinatorRun(run) && Reports(run[|run| - 1], view) && Wrong(run[|run| - 1], Verdict(view))
  }

  /** Which lists TDR_analyze would misjudge: those without a single record in which the first database and
      another one say so.  No such list is ever made, since the list itself comes out of a record. */
  lemma AdviceWrongExactly(view: seq<Tra>)
    ensures Misleads(view)
       <==> && view != [] && view[0] == Absent && (exists i :: 0 < i < |view| && view[i] == Absent)
            && forall i :: 0 <= i < |view| ==> view[i] in {Absent, Unknown}
  {
    if run :| MisledBy(run, view) {
      NothingRecorded(run, view);
    }
    if && view != [] && view[0] == Absent && (exists i :: 0 < i < |view| && view[i] == Absent)
       && forall i :: 0 <= i < |view| ==> view[i] in {Absent, Unknown} {
      var i :| 0 < i < |view| && view[i] == Absent;
      Unanimous(view, AdviseCommit, i);
      assert MisledBy([seq(|view|, _ => Active)], view);
    }
  }

  lemma NothingRecorded(run: seq<seq<Sub>>, view: seq<Tra>)
    requires MisledBy(run, view)
    ensures view != [] && view[0] == Absent && (exists i :: 0 < i < |view| && view[i] == Absent)
    ensures forall i :: 0 <= i < |view| ==> view[i] in {Absent, Unknown}
  {
    var s := run[|run| - 1];
    if Recorded(s) {
      AdviceIsSound(run, view);
    }
    assert forall i :: 0 <= i < |s| ==> s[i] == Active && Says(s[i], view[i]);
    if !(view[0] == Absent && exists i :: 0 < i < |view| && view[i] == Absent) {
      Silent(view);
    }
  }

  /** What can be seen of a record is enough: such a list is never misjudged. */
  lemma SeenRecordSuffices(run: seq<seq<Sub>>, view: seq<Tra>, i: nat)
    requires CoordinatorRun(run) && Reports(run[|run| - 1], view)
    requires i < |view| && view[i] in {Limbo, Committed, RolledBack}
    ensures !Wrong(run[|run| - 1], Verdict(view))
  {
    AdviceWrongExactly(view);
    assert !MisledBy(run, view);
  }

  /** With every database reachable and something in limbo, the advice is exactly the truth. */
  lemma AdviceIsComplete(run: seq<seq<Sub>>, view: seq<Tra>)
    requires CoordinatorRun(run) && Reports(run[|run| - 1], view) && Unknown !in view && Limbo in view
    ensures var s := run[|run| - 1];
            && (Verdict(view) == AdviseCommit <==> Done in s)
            && (Verdict(view) == AdviseRollback <==> Undone in s || Active in s)
            && (Verdict(view) == NoAdvice <==> forall i :: 0 <= i < |s| ==> s[i] == Prepared)
  {
    var s := run[|run| - 1];
    CrashInOrder(run, |run| - 1);
    LimboIsRecorded(s, view);
    RecordedMeansStarted(s);
    NoClash(s, view);
    FirstTells(s);
    var m :| 0 <= m < |view| && view[m] == Limbo;
    assert forall i :: 0 <= i < |view| ==> view[i] != Unknown && Says(s[i], view[i]);
    if s[0] == Done {
      Unanimous(view, AdviseCommit, m);
      NoneActive(s);
    } else if s[0] == Undone {
      Unanimous(view, AdviseRollback, m);
    } else if a :| 0 <= a < |s| && s[a] == Active {
      Unanimous(view, AdviseRollback, a);
    } else {
      Silent(view);
    }
  }

  lemma NoneActive(s: seq<Sub>)
    requires InOrder(s) && s != [] && s[0] == Done
    ensures Active !in s
  {
    FirstTells(s);
  }

  // ---- acting on the advice ----

  function Outcome(d: Advice): Sub
    requires d == AdviseCommit || d == AdviseRollback
  {
    if d == AdviseCommit then Done else Undone
  }

  /** Following the advice on everything in limbo leaves all reachable databases on one side. */
  lemma FollowingAdviceAgrees(run: seq<seq<Sub>>, view: seq<Tra>)
    requires CoordinatorRun(run) && Reports(run[|run| - 1], view) && Recorded(run[|run| - 1])
    requires Verdict(view) == AdviseCommit || Verdict(view) == AdviseRollback
    ensures var s, d := run[|run| - 1], Verdict(view);
            forall i :: 0 <= i < |s| && view[i] != Unknown ==>
              var after := if view[i] == Limbo then Outcome(d) else s[i];
              if d == AdviseCommit then after == Done else after == Undone || after == Active
  {
    var s := run[|run| - 1];
    AdviceIsSound(run, view);
    CrashInOrder(run, |run| - 1);
    forall i | 0 <= i < |s| && view[i] != Unknown && view[i] != Limbo
      ensures if Verdict(view) == AdviseCommit then s[i] == Done else s[i] == Undone || s[i] == Active
    {
      assert Says(s[i], view[i]);
      if Verdict(view) == AdviseCommit {
        var k :| 0 <= k < |s| && s[k] == Done;
        assert i < k ==> MayPrecede(s[i], s[k]);
        assert k < i ==> MayPrecede(s[k], s[i]);
      } else {
        assert s[i] in s;
      }
    }
  }

  function Mark(d: Advice): Tra
    requires d == AdviseCommit || d == AdviseRollback
  {
    if d == AdviseCommit then Committed else RolledBack
  }

  /** `next` is any later report of `s` in which some of the limbo subtransactions of `view` have been resolved as `d`. */
  ghost predicate Again(s: seq<Sub>, view: seq<Tra>, next: seq<Tra>, d: Advice)
    requires |view| == |s| && (d == AdviseCommit || d == AdviseRollback)
  {
    |next| == |view| && forall i :: 0 <= i < |view| ==> Says(s[i], next[i]) || (view[i] == Limbo && next[i] == Mark(d))
  }

  /** A later report in which what was seen before is still to be seen, and databases may have come into reach. */
  ghost predicate Resumed(s: seq<Sub>, view: seq<Tra>, next: seq<Tra>, d: Advice)
    requires |view| == |s| && (d == AdviseCommit || d == AdviseRollback)
  {
    Again(s, view, next, d) && forall i :: 0 <= i < |view| && view[i] != Unknown && next[i] != view[i] ==> view[i] == Limbo && next[i] == Mark(d)
  }

  /** An interrupted recovery that is started again while something is still in limbo decides the same way. */
  lemma RerunDecidesTheSame(run: seq<seq<Sub>>, view: seq<Tra>, next: seq<Tra>)
    requires CoordinatorRun(run) && Reports(run[|run| - 1], view) && Limbo in next
    requires Verdict(view) == AdviseCommit || Verdict(view) == AdviseRollback
    requires Resumed(run[|run| - 1], view, next, Verdict(view))
    ensures Verdict(next) == Verdict(view)
  {
    var s, d := run[|run| - 1], Verdict(view);
    var m :| 0 <= m < |next| && next[m] == Limbo;
    assert Says(s[m], next[m]);
    AdviceIsSound(run, view);
    CrashInOrder(run, |run| - 1);
    RecordedMeansStarted(s);
    FirstTells(s);
    var w := Witness(view);
    Consistent(s, view, next, d);
    Unanimous(next, d, if d == AdviseRollback && next[0] == RolledBack then m else w);
  }

  /** Resolving limbo the advised way adds no contradiction and no opposite voice. */
  lemma Consistent(s: seq<Sub>, view: seq<Tra>, next: seq<Tra>, d: Advice)
    requires InOrder(s) && s != [] && s[0] != Active && Reports(s, view) && (d == AdviseCommit || d == AdviseRollback)
    requires Again(s, view, next, d) && (d == AdviseCommit <==> s[0] == Done)
    ensures forall i :: 0 < i < |next| ==> !Clashes(Lead(next[0]), next[i])
    ensures forall i :: 0 < i < |next| ==> Voice(Lead(next[0]), next[i]) in {d, NoAdvice}
  {
    forall i | 0 < i < |next|
      ensures !Clashes(Lead(next[0]), next[i]) && Voice(Lead(next[0]), next[i]) in {d, NoAdvice}
    {
      assert MayPrecede(s[0], s[i]) && Says(s[0], view[0]) && Says(s[i], view[i]);
    }
  }

  /** Whatever was resolved and whichever databases are in reach the next time, the opposite is never advised. */
  lemma RerunNeverReverses(run: seq<seq<Sub>>, view: seq<Tra>, next: seq<Tra>)
    requires CoordinatorRun(run) && Reports(run[|run| - 1], view) && Recorded(run[|run| - 1])
    requires Verdict(view) == AdviseCommit || Verdict(view) == AdviseRollback
    requires Again(run[|run| - 1], view, next, Verdict(view))
    ensures Verdict(next) in {Verdict(view), NoAdvice, AdviseUnknown}
  {
    var s, d := run[|run| - 1], Verdict(view);
    AdviceIsSound(run, view);
    CrashInOrder(run, |run| - 1);
    RecordedMeansStarted(s);
    FirstTells(s);
    Consistent(s, view, next, d);
    var i := VoiceHeard(Lead(next[0]), next[1..]);
    if LastVoice(Lead(next[0]), next[1..]) != NoAdvice {
      assert next[1..][i] == next[i + 1];
    }
  }

  // ---- TDR_reconnect_multiple ----

  datatype Switches = Switches(commit: bool, rollback: bool, twoPhase: bool, prompt: bool)
  datatype Answer = SayCommit | SayRollback | Neither | EndOfInput
  datatype Action = Leave | Commit | Rollback

  /** When the operator is asked: no clear advice, or switches that go against it, or only -prompt. */
  predicate MustAsk(advice: Advice, sw: Switches)
  {
    match advice
    case NoAdvice => true
    case AdviseUnknown => true
    case AdviseLimbo => !sw.commit && !sw.rollback
    case AdviseRollback => sw.commit || (!sw.rollback && !sw.twoPhase && sw.prompt)
    case AdviseCommit => sw.rollback || (!sw.commit && !sw.twoPhase && sw.prompt)
  }

  /** What the limbo subtransactions get. */
  function Resolution(advice: Advice, sw: Switches, answer: Answer): Action
  {
    if MustAsk(advice, sw) then
      (if answer == SayCommit then Commit else if answer == SayRollback then Rollback else Leave)
    else if !(sw.commit || sw.rollback || sw.twoPhase) then Leave
    else if advice == AdviseCommit || (advice == AdviseLimbo && sw.commit) then Commit else Rollback
  }

  /** Every limbo subtransaction gets this action, and nothing is done to any other. */
  ghost predicate Treated(trans: seq<Tra>, actions: seq<Action>, action: Action)
  {
    && |actions| == |trans|
    && forall i :: 0 <= i < |trans| ==> actions[i] == if trans[i] == Limbo then action else Leave
  }

  /**
   TDR_reconnect_multiple.  The operator is asked when there is no clear advice and when a switch goes
   against it; with no switch that decides, only under -prompt.  What the operator says is done, and
   otherwise what was advised, if any of the switches allows it.
   */
  method ReconnectMultiple(trans: seq<Tra>, switches: Switches, answer: Answer)
    returns (asked: bool, actions: seq<Action>, error: bool)
    ensures asked == MustAsk(Verdict(trans), switches)
    ensures Verdict(trans) != AdviseCommit && Verdict(trans) != AdviseRollback ==> asked
    ensures Verdict(trans) == AdviseCommit && switches.rollback ==> asked
    ensures Verdict(trans) == AdviseRollback && switches.commit ==> asked
    ensures Verdict(trans) == AdviseCommit && !switches.rollback ==>
              (asked <==> !switches.commit && !switches.twoPhase && switches.prompt)
    ensures Verdict(trans) == AdviseRollback && !switches.commit ==>
              (asked <==> !switches.rollback && !switches.twoPhase && switches.prompt)
    ensures error <==> asked && answer == EndOfInput
    ensures Treated(trans, actions, Resolution(Verdict(trans), switches, answer))
    ensures asked ==> Treated(trans, actions, match answer
                                               case SayCommit => Commit
                                               case SayRollback => Rollback
                                               case _ => Leave)
    ensures !asked && (switches.commit || switches.rollback || switches.twoPhase) ==>
              Treated(trans, actions, if Verdict(trans) == AdviseCommit then Commit else Rollback)
    ensures !asked && !(switches.commit || switches.rollback || switches.twoPhase) ==> Treated(trans, actions, Leave)
  {
    EitherNeverAdvised(trans);
    var advice := Analyze(trans);
    var doCommit, doRollback := switches.commit, switches.rollback;
    asked := false;
    match advice {
      case AdviseRollback =>
        if switches.commit {
          asked := true;
        } else if switches.rollback || switches.twoPhase {
          doRollback := true;
        } else if switches.prompt {
          asked := true;
        }
      case AdviseCommit =>
        if switches.rollback {
          asked := true;
        } else if switches.commit || switches.twoPhase {
          doCommit := true;
        } else if switches.prompt {
          asked := true;
        }
      case AdviseUnknown => asked := true;
      case AdviseLimbo => asked := !switches.commit && !switches.rollback;
      case NoAdvice => asked := true;
    }
    if asked {
      doCommit, doRollback := answer == SayCommit, answer == SayRollback;
    }
    error := asked && answer == EndOfInput;
    actions := [];
    for i := 0 to |trans|
      invariant |actions| == i
      invariant forall j :: 0 <= j < i ==>
                  actions[j] == if trans[j] == Limbo then Resolution(Verdict(trans), switches, answer) else Leave
    {
      if trans[i] == Limbo && doCommit {
        actions := actions + [Commit];
      } else if trans[i] == Limbo && doRollback {
        actions := actions + [Rollback];
      } else {
        actions := actions + [Leave];
      }
    }
  }

  /** Without an operator's answer nothing is done against the advice, whatever the switches. */
  lemma UnattendedFollowsAdvice(trans: seq<Tra>, sw: Switches, answer: Answer)
    requires !MustAsk(Verdict(trans), sw) || answer == Neither || answer == EndOfInput
    ensures Resolution(Verdict(trans), sw, answer) == Commit ==> Verdict(trans) == AdviseCommit
    ensures Resolution(Verdict(trans), sw, answer) == Rollback ==> Verdict(trans) == AdviseRollback
  {
    EitherNeverAdvised(trans);
  }

  /** Unattended recovery after a crash therefore never splits a transaction: what it commits or rolls
      back is what the coordinator had begun. */
  lemma UnattendedRecoveryIsSafe(run: seq<seq<Sub>>, view: seq<Tra>, sw: Switches)
    requires CoordinatorRun(run) && Reports(run[|run| - 1], view) && Recorded(run[|run| - 1])
    requires !MustAsk(Verdict(view), sw)
    ensures var s, a := run[|run| - 1], Resolution(Verdict(view), sw, Neither);
            && (a == Commit ==> Done in s && Undone !in s && Active !in s)
            && (a == Rollback ==> Done !in s)
  {
    var s := run[|run| - 1];
    AdviceIsSound(run, view);
    UnattendedFollowsAdvice(view, sw, Neither);
    CrashInOrder(run, |run| - 1);
    FirstTells(s);
    if s[0] == Done {
      NoneActive(s);
    }
  }
}
