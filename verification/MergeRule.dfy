/**
  The merge decision for one row (`MergeBlock::mergeOneLine`).
 */
module MergeRule {
  import opened Lines
  import opened ManualDiffHelp
  import opened Diff3Lines
  import opened FineDiffs

  /** What happened in a row (`e_MergeDetails`). */
  datatype Details =
    Default | NoChange | BChanged | CChanged | BCChanged | BCChangedAndEqual | BDeleted | CDeleted | BCDeleted
    | BChangedCDeleted | CChangedBDeleted | BAdded | CAdded | BCAdded | BCAddedAndEqual

  /** The decision: which input is taken, whether it has no line here, or that the inputs conflict. */
  datatype Decision = Decision(details: Details, src: Selector, conflict: bool, lineRemoved: bool)

  // ----- the rule

  /** How one input differs from A in a row. */
  datatype Change = Same | Changed | Added | Deleted | Absent

  function ChangeOf(hasA: bool, has: bool, fine: bool): Change {
    if hasA then (if !has then Deleted else if fine then Changed else Same) else if has then Added else Absent
  }

  predicate Keeps(c: Change) { c == Same || c == Absent }

  /** B and C have the same, or both nothing. */
  predicate SameBC(r: Diff3Line) { r.Has(B) == r.Has(C) && (r.Has(B) ==> r.fineBC.None?) }

  /** The input that made the only change, or the common change of both. */
  function SourceFor(b: Change, c: Change, same: bool): Selector {
    if b == Same && c == Same then A else if Keeps(b) || same then C else if Keeps(c) then B else Selector.None
  }

  function DetailsFor(b: Change, c: Change, same: bool): Details {
    match (b, c)
    case (Same, Same) => NoChange
    case (Same, Changed) => CChanged
    case (Same, Deleted) => CDeleted
    case (Changed, Same) => BChanged
    case (Changed, Changed) => if same then BCChangedAndEqual else BCChanged
    case (Changed, Deleted) => BChangedCDeleted
    case (Deleted, Same) => BDeleted
    case (Deleted, Changed) => CChangedBDeleted
    case (Deleted, Deleted) => BCDeleted
    case (Added, Added) => if same then BCAddedAndEqual else BCAdded
    case (Added, Absent) => BAdded
    case (Absent, Added) => CAdded
    case _ => Default
  }

  function Decide(r: Diff3Line, three: bool): Decision {
    var b := ChangeOf(r.Has(A), r.Has(B), r.fineAB.Some?);
    if three then
      var c := ChangeOf(r.Has(A), r.Has(C), r.fineCA.Some?);
      var src := SourceFor(b, c, SameBC(r));
      Decision(DetailsFor(b, c, SameBC(r)), src, src == Selector.None, src != Selector.None && !r.Has(src))
    else if b == Same then Decision(NoChange, A, false, false)
    else Decision(if b == Changed then BChanged else BDeleted, Selector.None, true, false)
  }

  /** Three equal texts never come with a single difference between two of them, and no row is empty. */
  predicate Decidable(r: Diff3Line) {
    && (r.Has(A) || r.Has(B) || r.Has(C))
    && (r.Has(A) && r.Has(B) && r.Has(C) ==>
          !(r.fineAB.Some? && r.fineBC.None? && r.fineCA.None?)
          && !(r.fineAB.None? && r.fineBC.Some? && r.fineCA.None?)
          && !(r.fineAB.None? && r.fineBC.None? && r.fineCA.Some?))
  }

  method MergeOneLine(r: Diff3Line, bTwoInputs: bool) returns (d: Decision)
    requires bTwoInputs || Decidable(r)
    ensures d == Decide(r, !bTwoInputs)
  {
    d := Decision(Default, Selector.None, false, false);
    var a, b, c := IsLine(r.lineA), IsLine(r.lineB), IsLine(r.lineC);
    var fineAB, fineBC, fineCA := r.fineAB.Some?, r.fineBC.Some?, r.fineCA.Some?;
    if bTwoInputs {
      if a && b {
        if !fineAB {
          d := d.(details := NoChange, src := A);
        } else {
          d := d.(details := BChanged, conflict := true);
        }
      } else {
        d := d.(details := BDeleted, conflict := true);
      }
      return;
    }
    if a && b && c {
      if !fineAB && !fineBC && !fineCA {
        d := d.(details := NoChange, src := A);
      } else if !fineAB && fineBC && fineCA {
        d := d.(details := CChanged, src := C);
      } else if fineAB && fineBC && !fineCA {
        d := d.(details := BChanged, src := B);
      } else if fineAB && !fineBC && fineCA {
        d := d.(details := BCChangedAndEqual, src := C);
      } else if fineAB && fineBC && fineCA {
        d := d.(details := BCChanged, conflict := true);
      } else {
        assert false;
      }
    } else if a && b && !c {
      if fineAB {
        d := d.(details := BChangedCDeleted, conflict := true);
      } else {
        d := d.(details := CDeleted, lineRemoved := true, src := C);
      }
    } else if a && !b && c {
      if fineCA {
        d := d.(details := CChangedBDeleted, conflict := true);
      } else {
        d := d.(details := BDeleted, lineRemoved := true, src := B);
      }
    } else if !a && b && c {
      if fineBC {
        d := d.(details := BCAdded, conflict := true);
      } else {
        d := d.(details := BCAddedAndEqual, src := C);
      }
    } else if !a && !b && c {
      d := d.(details := CAdded, src := C);
    } else if !a && b && !c {
      d := d.(details := BAdded, src := B);
    } else if a && !b && !c {
      d := d.(details := BCDeleted, lineRemoved := true, src := C);
    } else {
      assert false;
    }
  }

  // ----- what the rule means for the texts

  /** The text that an input has in a row, if any. */
  function TextOf(r: Diff3Line, w: Selector, texts: Keys): Option<Line> {
    if r.Has(w) && 0 <= r.Line(w) < |texts.Of(w)| then Some(texts.Of(w)[r.Line(w)]) else Option.None
  }

  /** The lists of differences are there exactly for lines whose texts differ. */
  ghost predicate FineTells(r: Diff3Line, texts: Keys) {
    && RowInFiles(r, texts)
    && (r.fineAB.Some? <==> r.Has(A) && r.Has(B) && TextOf(r, A, texts) != TextOf(r, B, texts))
    && (r.fineBC.Some? <==> r.Has(B) && r.Has(C) && TextOf(r, B, texts) != TextOf(r, C, texts))
    && (r.fineCA.Some? <==> r.Has(C) && r.Has(A) && TextOf(r, C, texts) != TextOf(r, A, texts))
  }

  /** The result of a merge: a text or nothing, or a conflict. */
  datatype Outcome = Take(text: Option<Line>) | Conflict

  /** Who changed something wins; if all three differ there is a conflict. */
  function ThreeWay(a: Option<Line>, b: Option<Line>, c: Option<Line>): Outcome {
    if b == c then Take(b) else if a == b then Take(c) else if a == c then Take(b) else Conflict
  }

  function OutcomeOf(d: Decision, r: Diff3Line, texts: Keys): Outcome {
    if d.conflict then Conflict else if d.lineRemoved then Take(Option.None) else Take(TextOf(r, d.src, texts))
  }

  /** The decision follows the rule, and the failing assertions are never reached. */
  lemma DecideIsThreeWay(r: Diff3Line, texts: Keys)
    requires FineTells(r, texts) && (r.Has(A) || r.Has(B) || r.Has(C))
    ensures Decidable(r)
    ensures OutcomeOf(Decide(r, true), r, texts)
            == ThreeWay(TextOf(r, A, texts), TextOf(r, B, texts), TextOf(r, C, texts))
    ensures !Decide(r, true).conflict ==>
              Decide(r, true).src in {A, B, C} && (Decide(r, true).lineRemoved <==> !r.Has(Decide(r, true).src))
  {
  }

  /** With two inputs nothing is taken over unless both agree. */
  lemma DecideIsTwoWay(r: Diff3Line, texts: Keys)
    requires FineTells(r, texts)
    ensures var d, a, b := Decide(r, false), TextOf(r, A, texts), TextOf(r, B, texts);
            && (d.conflict <==> a != b || a.None?)
            && (!d.conflict ==> d.src == A && !d.lineRemoved && OutcomeOf(d, r, texts) == Take(a))
  {
  }

  /** A is taken exactly where all inputs agree. */
  lemma UnchangedMeansSame(r: Diff3Line, texts: Keys, three: bool)
    requires FineTells(r, texts) && (three ==> r.Has(A) || r.Has(B) || r.Has(C))
    ensures Decide(r, three).src == A ==>
              && r.Has(A) && r.Has(B) && TextOf(r, B, texts) == TextOf(r, A, texts)
              && (three ==> r.Has(C) && TextOf(r, C, texts) == TextOf(r, A, texts))
              && !Decide(r, three).lineRemoved && !Decide(r, three).conflict
  {
  }

  /** If B left everything as it is in A, the merge is C; if C did, it is B. */
  lemma UnchangedSideGivesOther(r: Diff3Line, texts: Keys)
    requires FineTells(r, texts) && (r.Has(A) || r.Has(B) || r.Has(C))
    ensures TextOf(r, B, texts) == TextOf(r, A, texts) ==>
              OutcomeOf(Decide(r, true), r, texts) == Take(TextOf(r, C, texts))
    ensures TextOf(r, C, texts) == TextOf(r, A, texts) ==>
              OutcomeOf(Decide(r, true), r, texts) == Take(TextOf(r, B, texts))
  {
    hide Decide, FineTells, TextOf;
    DecideIsThreeWay(r, texts);
  }
}
