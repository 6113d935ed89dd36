/**
 * The non-versioned moderation capability: thresholds, the three state
 * conditions, the four mark operations, and the filtered reads and counts.
 */
module Moderatable {
  import opened Wrappers
  import opened Store

  /** The two score thresholds of one moderated type. */
  datatype Thresholds = Thresholds(moderation: real, spam: real)

  /** The class-wide defaults: required moderation score 1.0, required spam score 10.0. */
  const Defaults: Thresholds := Thresholds(1.0, 10.0)

  /** The three moderation states; derived from the scores, never stored. */
  datatype State = Approved | Unapproved | Spam

  /** PHP truthiness of a threshold argument: `null` and `0` are false. */
  predicate Given(arg: Option<real>) {
    arg.Some? && arg.value != 0.0
  }

  /** Threshold selection shared by both constructors: a truthy argument wins, otherwise the default. */
  function ChooseThresholds(defaults: Thresholds, moderationArg: Option<real>, spamArg: Option<real>): (t: Thresholds)
    ensures Given(moderationArg) ==> t.moderation == moderationArg.value
    ensures !Given(moderationArg) ==> t.moderation == defaults.moderation
    ensures Given(spamArg) ==> t.spam == spamArg.value
    ensures !Given(spamArg) ==> t.spam == defaults.spam
    ensures defaults.moderation != 0.0 ==> t.moderation != 0.0
    ensures defaults.spam != 0.0 ==> t.spam != 0.0
  {
    Thresholds(
      if Given(moderationArg) then moderationArg.value else defaults.moderation,
      if Given(spamArg) then spamArg.value else defaults.spam)
  }

  /** `new Moderatable($moderation_score, $spam_score)`. */
  function Construct(moderationArg: Option<real>, spamArg: Option<real>): (t: Thresholds)
    ensures t.moderation != 0.0 && t.spam != 0.0
    ensures moderationArg == None || moderationArg == Some(0.0) ==> t.moderation == 1.0
    ensures spamArg == None || spamArg == Some(0.0) ==> t.spam == 10.0
    ensures Given(moderationArg) ==> t.moderation == moderationArg.value
    ensures Given(spamArg) ==> t.spam == spamArg.value
  {
    ChooseThresholds(Defaults, moderationArg, spamArg)
  }

  /** Constructing from a type's own thresholds gives those thresholds back. */
  lemma ConstructFromThresholdsIsIdentity(t: Thresholds)
    requires t.moderation != 0.0 && t.spam != 0.0
    ensures Construct(Some(t.moderation), Some(t.spam)) == t
  {
  }

  /** `(SpamScore < <spam> OR SpamScore IS NULL)`: the not-spam half of two conditions. */
  function NotSpam(t: Thresholds): Cond {
    Or(Less(SpamScore, t.spam), IsNull(SpamScore))
  }

  /** `(ModerationScore < <moderation> OR ModerationScore IS NULL)`. */
  function LowModeration(t: Thresholds): Cond {
    Or(Less(ModerationScore, t.moderation), IsNull(ModerationScore))
  }

  /** The parts of the state conditions in closed form. */
  lemma ConditionParts(t: Thresholds, row: Row)
    ensures Holds(NotSpam(t), row) <==> row.spamScore.None? || row.spamScore.value < t.spam
    ensures Holds(And(NotSpam(t), AtLeast(ModerationScore, t.moderation)), row) <==>
      Holds(NotSpam(t), row) && row.moderationScore.Some? && row.moderationScore.value >= t.moderation
    ensures Holds(And(NotSpam(t), LowModeration(t)), row) <==>
      Holds(NotSpam(t), row) && (row.moderationScore.None? || row.moderationScore.value < t.moderation)
    ensures Holds(AtLeast(SpamScore, t.spam), row) <==> row.spamScore.Some? && row.spamScore.value >= t.spam
  {
    HoldsComparisons(SpamScore, t.spam, row);
    HoldsComparisons(ModerationScore, t.moderation, row);
    HoldsConnectives(Less(SpamScore, t.spam), IsNull(SpamScore), row);
    HoldsConnectives(Less(ModerationScore, t.moderation), IsNull(ModerationScore), row);
    HoldsConnectives(NotSpam(t), AtLeast(ModerationScore, t.moderation), row);
    HoldsConnectives(NotSpam(t), LowModeration(t), row);
  }

  /** `ConditionParts` for every row at once. */
  lemma ConditionPartsEverywhere(t: Thresholds)
    ensures forall row :: Holds(NotSpam(t), row) <==> row.spamScore.None? || row.spamScore.value < t.spam
    ensures forall row :: Holds(And(NotSpam(t), AtLeast(ModerationScore, t.moderation)), row) <==>
      Holds(NotSpam(t), row) && row.moderationScore.Some? && row.moderationScore.value >= t.moderation
    ensures forall row :: Holds(And(NotSpam(t), LowModeration(t)), row) <==>
      Holds(NotSpam(t), row) && (row.moderationScore.None? || row.moderationScore.value < t.moderation)
    ensures forall row :: Holds(AtLeast(SpamScore, t.spam), row) <==> row.spamScore.Some? && row.spamScore.value >= t.spam
  {
    forall row: Row {
      ConditionParts(t, row);
    }
  }

  /** The SQL condition of each state; it keeps exactly the rows the classifier puts in that state. */
  function Where(t: Thresholds, s: State): (c: Cond)
    ensures forall row :: Holds(c, row) <==> Classify(t, row) == s
  {
    ConditionPartsEverywhere(t);
    match s
    case Approved => And(NotSpam(t), AtLeast(ModerationScore, t.moderation))
    case Unapproved => And(NotSpam(t), LowModeration(t))
    case Spam => AtLeast(SpamScore, t.spam)
  }

  /** A row is in state `s` when the state's SQL condition keeps it. */
  predicate InState(t: Thresholds, s: State, row: Row) {
    Holds(Where(t, s), row)
  }

  /** Reference classifier: spam is decided first, then approval; a NULL score never reaches a threshold. */
  function Classify(t: Thresholds, row: Row): State {
    if row.spamScore.Some? && row.spamScore.value >= t.spam then Spam
    else if row.moderationScore.Some? && row.moderationScore.value >= t.moderation then Approved
    else Unapproved
  }

  /**
   * The three conditions in closed form: a NULL comparison is false, `IS NULL` is the only NULL test.
   * A corollary of `ConditionParts`, named for readers of the conditions.
   */
  lemma StateConditions(t: Thresholds, row: Row)
    ensures InState(t, Approved, row) <==>
      (row.spamScore.None? || row.spamScore.value < t.spam)
      && row.moderationScore.Some? && row.moderationScore.value >= t.moderation
    ensures InState(t, Unapproved, row) <==>
      (row.spamScore.None? || row.spamScore.value < t.spam)
      && (row.moderationScore.None? || row.moderationScore.value < t.moderation)
    ensures InState(t, Spam, row) <==> row.spamScore.Some? && row.spamScore.value >= t.spam
  {
    ConditionPartsEverywhere(t);
  }

  /**
   * Exactly one state condition holds of every row, and it is the one the classifier picks.
   * A per-row corollary of the contract of `Where`.
   */
  lemma ExactlyOneState(t: Thresholds, row: Row)
    ensures InState(t, Approved, row) <==> Classify(t, row) == Approved
    ensures InState(t, Unapproved, row) <==> Classify(t, row) == Unapproved
    ensures InState(t, Spam, row) <==> Classify(t, row) == Spam
  {
    StateConditions(t, row);
  }

  /** `ExactlyOneState` for every row at once; a corollary of the contract of `Where`. */
  lemma ConditionsAgreeWithClassifier(t: Thresholds)
    ensures forall row :: InState(t, Approved, row) <==> Classify(t, row) == Approved
    ensures forall row :: InState(t, Unapproved, row) <==> Classify(t, row) == Unapproved
    ensures forall row :: InState(t, Spam, row) <==> Classify(t, row) == Spam
  {
    forall row: Row {
      ExactlyOneState(t, row);
    }
  }

  /** Both threshold tests are non-strict: a score equal to its threshold reaches it. */
  lemma ThresholdsAreInclusive(t: Thresholds, row: Row)
    ensures row.spamScore == Some(t.spam) ==> InState(t, Spam, row)
    ensures row.spamScore == None && row.moderationScore == Some(t.moderation) ==> InState(t, Approved, row)
  {
    StateConditions(t, row);
  }

  /** A freshly created record: both scores default to 0. */
  function NewRow(id: int, fields: map<string, string>): (row: Row)
    ensures row.id == id && row.fields == fields
    ensures row.spamScore == Some(0.0) && row.moderationScore == Some(0.0)
    ensures forall t: Thresholds :: t.moderation > 0.0 && t.spam > 0.0 ==> Classify(t, row) == Unapproved
  {
    Row(id, fields, Some(0.0), Some(0.0))
  }

  /** `Approve`: the required moderation score and a zero spam score; nothing else changes. */
  function Approve(t: Thresholds, row: Row): (row': Row)
    ensures row'.moderationScore == Some(t.moderation) && row'.spamScore == Some(0.0)
    ensures row'.id == row.id && row'.fields == row.fields
    ensures InState(t, Approved, row') <==> t.spam > 0.0
  {
    var r := row.(moderationScore := Some(t.moderation), spamScore := Some(0.0));
    StateConditions(t, r);
    r
  }

  /** `Unapprove`: moderation score 0; the spam score and the other columns are untouched. */
  function Unapprove(row: Row): (row': Row)
    ensures row'.moderationScore == Some(0.0)
    ensures row'.spamScore == row.spamScore && row'.id == row.id && row'.fields == row.fields
    ensures forall t: Thresholds :: t.moderation > 0.0 ==> Classify(t, row') != Approved
    ensures forall t: Thresholds :: Classify(t, row) == Spam <==> Classify(t, row') == Spam
  {
    row.(moderationScore := Some(0.0))
  }

  /** `IsSpam`: the spam threshold as spam score and moderation score 0, so the row is spam and never approved. */
  function IsSpam(t: Thresholds, row: Row): (row': Row)
    ensures row'.spamScore == Some(t.spam) && row'.moderationScore == Some(0.0)
    ensures row'.id == row.id && row'.fields == row.fields
    ensures InState(t, Spam, row') && !InState(t, Approved, row') && !InState(t, Unapproved, row')
  {
    var r := row.(spamScore := Some(t.spam), moderationScore := Some(0.0));
    StateConditions(t, r);
    r
  }

  /** `IsHam`: spam score 0; the moderation score and the other columns are untouched. */
  function IsHam(row: Row): (row': Row)
    ensures row'.spamScore == Some(0.0)
    ensures row'.moderationScore == row.moderationScore && row'.id == row.id && row'.fields == row.fields
    ensures forall t: Thresholds :: t.spam > 0.0 ==> Classify(t, row') != Spam
  {
    row.(spamScore := Some(0.0))
  }

  /** Marking twice is marking once. */
  lemma MarksAreIdempotent(t: Thresholds, row: Row)
    ensures Approve(t, Approve(t, row)) == Approve(t, row)
    ensures Unapprove(Unapprove(row)) == Unapprove(row)
    ensures IsSpam(t, IsSpam(t, row)) == IsSpam(t, row)
    ensures IsHam(IsHam(row)) == IsHam(row)
  {
  }

  /**
   * A caller's filter, as the list of its top-level OR-separated disjuncts.
   * The empty list stands for a filter PHP treats as absent (`null` or the empty string).
   */
  type CallerFilter = seq<Cond>

  /** Whether a row meets a caller filter; an absent filter accepts every row. */
  predicate Accepts(filter: CallerFilter, row: Row) {
    |filter| == 0 || exists i :: 0 <= i < |filter| && Holds(filter[i], row)
  }

  /** The state condition AND the whole caller filter, the filter bracketed as one operand. */
  function FilteredWhere(t: Thresholds, s: State, filter: CallerFilter): (c: Cond)
    ensures forall row :: Holds(c, row) <==> InState(t, s, row) && Accepts(filter, row)
  {
    if |filter| == 0 then Where(t, s)
    else
      var c := And(Where(t, s), Disjoin(filter[0], filter[1..]));
      assert forall row :: Holds(c, row) <==> Holds(Where(t, s), row) && Holds(Disjoin(filter[0], filter[1..]), row);
      assert forall row, i :: 1 <= i < |filter| && Holds(filter[1..][i - 1], row) ==> Holds(filter[i], row);
      c
  }

  /** `AreApproved` / `AreUnapproved` / `AreSpam`: the rows in state `s` that the caller filter accepts. */
  function AreInState(t: Thresholds, s: State, rows: seq<Row>, filter: CallerFilter): (r: seq<Row>)
    ensures forall x :: x in r ==> InState(t, s, x) && Accepts(filter, x)
    ensures forall x :: multiset(r)[x] == if InState(t, s, x) && Accepts(filter, x) then multiset(rows)[x] else 0
  {
    Select(rows, FilteredWhere(t, s, filter))
  }

  /** `AreApproved`: approved rows the filter accepts, with every copy of them. */
  function AreApproved(t: Thresholds, rows: seq<Row>, filter: CallerFilter): (r: seq<Row>)
    ensures forall x :: x in r ==> Classify(t, x) == Approved && Accepts(filter, x)
    ensures forall x :: Classify(t, x) == Approved && Accepts(filter, x) ==> multiset(r)[x] == multiset(rows)[x]
  {
    ConditionsAgreeWithClassifier(t);
    AreInState(t, Approved, rows, filter)
  }

  /** `AreUnapproved`: unapproved rows the filter accepts, with every copy of them. */
  function AreUnapproved(t: Thresholds, rows: seq<Row>, filter: CallerFilter): (r: seq<Row>)
    ensures forall x :: x in r ==> Classify(t, x) == Unapproved && Accepts(filter, x)
    ensures forall x :: Classify(t, x) == Unapproved && Accepts(filter, x) ==> multiset(r)[x] == multiset(rows)[x]
  {
    ConditionsAgreeWithClassifier(t);
    AreInState(t, Unapproved, rows, filter)
  }

  /** `AreSpam`: spam rows the filter accepts, with every copy of them. */
  function AreSpam(t: Thresholds, rows: seq<Row>, filter: CallerFilter): (r: seq<Row>)
    ensures forall x :: x in r ==> Classify(t, x) == Spam && Accepts(filter, x)
    ensures forall x :: Classify(t, x) == Spam && Accepts(filter, x) ==> multiset(r)[x] == multiset(rows)[x]
  {
    ConditionsAgreeWithClassifier(t);
    AreInState(t, Spam, rows, filter)
  }

  /** `AreApprovedCount` and its siblings: the size of the whole table's state, 0 when none match. */
  function AreInStateCount(t: Thresholds, s: State, rows: seq<Row>): (n: nat)
    ensures n == |AreInState(t, s, rows, [])|
    ensures n <= |rows|
    ensures n == 0 <==> forall i :: 0 <= i < |rows| ==> Classify(t, rows[i]) != s
  {
    CountIsSelectionSize(rows, Where(t, s));
    ConditionsAgreeWithClassifier(t);
    Count(rows, Where(t, s))
  }

  /** Every row of a table is counted by exactly one of the three counts. */
  lemma {:induction false} CountsPartitionTable(t: Thresholds, rows: seq<Row>)
    ensures AreInStateCount(t, Approved, rows) + AreInStateCount(t, Unapproved, rows)
            + AreInStateCount(t, Spam, rows) == |rows|
  {
    if |rows| > 0 {
      CountsPartitionTable(t, rows[1..]);
      ExactlyOneState(t, rows[0]);
    }
  }

  /** The condition the source actually sends: `<state> AND <filter>` with the filter unbracketed. */
  function AsWrittenWhere(t: Thresholds, s: State, filter: CallerFilter): (c: Cond)
    ensures forall row :: Holds(c, row) <==>
      if |filter| == 0 then InState(t, s, row)
      else (InState(t, s, row) && Holds(filter[0], row))
           || exists i :: 1 <= i < |filter| && Holds(filter[i], row)
  {
    if |filter| == 0 then Where(t, s)
    else
      var c := Disjoin(And(Where(t, s), filter[0]), filter[1..]);
      assert forall row, i :: 1 <= i < |filter| && Holds(filter[i], row) ==> Holds(filter[1..][i - 1], row);
      c
  }

  /** The rows the unbracketed condition keeps: in state and meeting the first disjunct, or meeting any later one. */
  predicate AsWrittenKeeps(t: Thresholds, s: State, filter: CallerFilter, row: Row) {
    || (InState(t, s, row) && (|filter| == 0 || Holds(filter[0], row)))
    || exists i :: 1 <= i < |filter| && Holds(filter[i], row)
  }

  /** The reads as written: any row meeting a later disjunct of the filter escapes the state condition. */
  function AreInStateAsWritten(t: Thresholds, s: State, rows: seq<Row>, filter: CallerFilter): (r: seq<Row>)
    ensures forall x :: x in r ==> AsWrittenKeeps(t, s, filter, x)
    ensures forall x :: multiset(r)[x] == if AsWrittenKeeps(t, s, filter, x) then multiset(rows)[x] else 0
  {
    Select(rows, AsWrittenWhere(t, s, filter))
  }

  /** With at most one disjunct in the filter, the unbracketed condition is harmless. */
  lemma AsWrittenAgreesOnSimpleFilters(t: Thresholds, s: State, rows: seq<Row>, filter: CallerFilter)
    requires |filter| <= 1
    ensures AreInStateAsWritten(t, s, rows, filter) == AreInState(t, s, rows, filter)
  {
    forall row ensures Holds(AsWrittenWhere(t, s, filter), row) == Holds(FilteredWhere(t, s, filter), row) {
    }
    SelectDependsOnlyOnHolds(rows, AsWrittenWhere(t, s, filter), FilteredWhere(t, s, filter));
  }

  /** Selecting with two conditions that keep the same rows gives the same result. */
  lemma {:induction false} SelectDependsOnlyOnHolds(rows: seq<Row>, c: Cond, d: Cond)
    requires forall row :: Holds(c, row) == Holds(d, row)
    ensures Select(rows, c) == Select(rows, d)
  {
    if |rows| > 0 {
      SelectDependsOnlyOnHolds(rows[1..], c, d);
    }
  }

  /** `AreApproved("ID = '1' OR ID = '2'")` returns a spam row whose ID is 2. */
  lemma UnbracketedFilterLeaksSpam()
    ensures var spamRow := Row(2, map[], Some(10.0), Some(0.0));
            var filter := [IdIs(1), IdIs(2)];
            && Classify(Defaults, spamRow) == Spam
            && spamRow in AreInStateAsWritten(Defaults, Approved, [spamRow], filter)
            && spamRow !in AreInState(Defaults, Approved, [spamRow], filter)
  {
    var spamRow := Row(2, map[], Some(10.0), Some(0.0));
    var filter := [IdIs(1), IdIs(2)];
    assert Holds(filter[1], spamRow);
    assert multiset(AreInStateAsWritten(Defaults, Approved, [spamRow], filter))[spamRow] == 1;
    ExactlyOneState(Defaults, spamRow);
  }

  /** A new record is unapproved; `Approve` gives scores (1.0, 0) and the approved state. */
  lemma ApproveNewRecordWithDefaults(id: int, fields: map<string, string>)
    ensures Classify(Defaults, NewRow(id, fields)) == Unapproved
    ensures Approve(Defaults, NewRow(id, fields)).moderationScore == Some(1.0)
    ensures Approve(Defaults, NewRow(id, fields)).spamScore == Some(0.0)
    ensures Classify(Defaults, Approve(Defaults, NewRow(id, fields))) == Approved
  {
    ExactlyOneState(Defaults, Approve(Defaults, NewRow(id, fields)));
  }

  /** Marking an approved record as spam gives scores (0, 10.0), the spam state, and no approval. */
  lemma SpamAfterApproveWithDefaults(id: int, fields: map<string, string>)
    ensures var row := IsSpam(Defaults, Approve(Defaults, NewRow(id, fields)));
            && row.moderationScore == Some(0.0) && row.spamScore == Some(10.0)
            && Classify(Defaults, row) == Spam && !InState(Defaults, Approved, row)
  {
  }
}
