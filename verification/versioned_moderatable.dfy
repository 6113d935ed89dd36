/**
 * The two-stage moderation capability: each record has a version history,
 * an optional Stage row (the working copy) and an optional Live row (the
 * published copy). Reads pick a stage by mode, score-only writes patch the
 * current version in place, and every write reconciles the two stages.
 */
module VersionedModeratable {
  import opened Wrappers
  import opened Store
  import opened Moderatable
  import opened ModeratableState

  /** The versioned type's thresholds and the names of its two stages. */
  datatype Config = Config(thresholds: Thresholds, defaultStage: string, liveStage: string)

  /** `new VersionedModeratable($moderation_score, $spam_score)`: stages Stage and Live, thresholds as for `Moderatable`. */
  function ConstructVersioned(moderationArg: Option<real>, spamArg: Option<real>): (cfg: Config)
    ensures cfg.defaultStage == "Stage" && cfg.liveStage == "Live"
    ensures cfg.thresholds.moderation != 0.0 && cfg.thresholds.spam != 0.0
    ensures !Given(moderationArg) ==> cfg.thresholds.moderation == DefaultModerationScore
    ensures !Given(spamArg) ==> cfg.thresholds.spam == DefaultSpamScore
    ensures Given(moderationArg) ==> cfg.thresholds.moderation == moderationArg.value
    ensures Given(spamArg) ==> cfg.thresholds.spam == spamArg.value
  {
    Config(ChooseThresholds(Thresholds(DefaultModerationScore, DefaultSpamScore), moderationArg, spamArg), "Stage", "Live")
  }

  /** Both constructors choose the same thresholds: their two copies of the defaults agree. */
  lemma ConstructorsAgree(moderationArg: Option<real>, spamArg: Option<real>)
    ensures ConstructVersioned(moderationArg, spamArg).thresholds == Construct(moderationArg, spamArg)
  {
  }

  /** One row of the versions table: a version number and the record's columns at that version. */
  datatype Entry = Entry(version: int, row: Row)

  /** One record: its versions in the order the store lists them, and its Stage and Live rows. */
  datatype VersionedRecord = VersionedRecord(history: seq<Entry>, stage: Option<Entry>, live: Option<Entry>)

  /** The versioned read conditions: approved as before; unapproved and spam split on the spam score alone. */
  function VersionedWhere(t: Thresholds, s: State): (c: Cond)
    ensures s == Approved ==> c == Where(t, Approved)
    ensures s == Unapproved ==> forall row :: Holds(c, row) <==> Classify(t, row) != Spam
    ensures s == Spam ==> forall row :: Holds(c, row) <==> Classify(t, row) == Spam
  {
    ConditionPartsEverywhere(t);
    match s
    case Approved => Where(t, Approved)
    case Unapproved => NotSpam(t)
    case Spam => AtLeast(SpamScore, t.spam)
  }

  /** The versioned unapproved and spam conditions read only the spam score, and exactly one holds. */
  lemma VersionedSplitBySpamScore(t: Thresholds, row: Row)
    ensures VersionedWhere(t, Approved) == Where(t, Approved)
    ensures Holds(VersionedWhere(t, Spam), row) <==> Classify(t, row) == Spam
    ensures Holds(VersionedWhere(t, Unapproved), row) <==> Classify(t, row) != Spam
    ensures forall other: Row :: other.spamScore == row.spamScore ==>
      (Holds(VersionedWhere(t, Unapproved), other) <==> Holds(VersionedWhere(t, Unapproved), row))
  {
    HoldsComparisons(SpamScore, t.spam, row);
    HoldsConnectives(Less(SpamScore, t.spam), IsNull(SpamScore), row);
    forall other: Row | other.spamScore == row.spamScore
      ensures Holds(VersionedWhere(t, Unapproved), other) <==> Holds(VersionedWhere(t, Unapproved), row)
    {
      HoldsComparisons(SpamScore, t.spam, other);
      HoldsConnectives(Less(SpamScore, t.spam), IsNull(SpamScore), other);
    }
  }

  /** The shape of the query being augmented: conjunctive or disjunctive. */
  datatype Connective = AndQuery | OrQuery

  datatype QueryError = DisjunctiveQuery | UnknownMode(mode: Option<string>)

  /**
   * What the augmented query yields for one record: the row it lists, the
   * stage the versioned read was switched to, and the reading stage left behind.
   */
  datatype Selection = Selection(row: Option<Entry>, readFrom: string, readingStage: string)

  /** The Stage row is a newer version than the Live row, or there is no Live row. */
  predicate StageAheadOfLive(rec: VersionedRecord)
    requires rec.stage.Some?
  {
    rec.live.None? || rec.stage.value.version > rec.live.value.version
  }

  /**
   * `augmentSQL`: which row of one record the current mode lets through.
   * Modes approved and approved_if_latest read Live; the others read Stage.
   * The reading stage is switched for the read and then set back.
   */
  function AugmentSQL(cfg: Config, mode: Option<string>, connective: Connective, readingStage: string, rec: VersionedRecord)
    : (r: Result<Selection, QueryError>)
    ensures connective == OrQuery ==> r == Failure(DisjunctiveQuery)
    ensures r.Success? ==> r.value.readingStage == readingStage
    ensures r.Success? ==>
      r.value.readFrom == if mode == Some("approved") || mode == Some("approved_if_latest") then cfg.liveStage else cfg.defaultStage
    ensures connective == AndQuery && mode == Some("approved") ==>
      r.Success? && r.value.row == rec.live
    ensures connective == AndQuery && mode == Some("approved_if_latest") ==>
      && r.Success?
      && (r.value.row.Some? ==> r.value.row == rec.live)
      && (r.value.row.Some? <==>
           rec.live.Some? && rec.stage.Some? && rec.stage.value.version <= rec.live.value.version)
    ensures connective == AndQuery && mode == Some("unapproved") ==>
      && r.Success?
      && (r.value.row.Some? ==> r.value.row == rec.stage)
      && (r.value.row.Some? <==>
           rec.stage.Some? && Classify(cfg.thresholds, rec.stage.value.row) != Spam && StageAheadOfLive(rec))
    ensures connective == AndQuery && mode == Some("spam") ==>
      && r.Success?
      && (r.value.row.Some? ==> r.value.row == rec.stage)
      && (r.value.row.Some? <==>
           rec.stage.Some? && Classify(cfg.thresholds, rec.stage.value.row) == Spam && StageAheadOfLive(rec))
    ensures connective == AndQuery && mode == Some("any") ==> r.Success? && r.value.row == rec.stage
    ensures connective == AndQuery && (mode.None? || !KnownMode(mode.value)) ==> r == Failure(UnknownMode(mode))
  {
    if connective == OrQuery then Failure(DisjunctiveQuery)
    else if mode == Some("approved") || mode == Some("approved_if_latest") then
      var live := rec.live;
      var latest := live.Some? && rec.stage.Some? && rec.stage.value.version <= live.value.version;
      var listed := if mode == Some("approved") || latest then live else None;
      Success(Selection(listed, cfg.liveStage, readingStage))
    else
      var staged := rec.stage;
      if mode == Some("any") then Success(Selection(staged, cfg.defaultStage, readingStage))
      else if mode == Some("unapproved") || mode == Some("spam") then
        var s := if mode == Some("unapproved") then Unapproved else Spam;
        var keep := staged.Some? && Holds(VersionedWhere(cfg.thresholds, s), staged.value.row) && StageAheadOfLive(rec);
        Success(Selection(if keep then staged else None, cfg.defaultStage, readingStage))
      else Failure(UnknownMode(mode))
  }

  /** The row a manipulation patches in place: `RecordID = <id> AND Version = <version>`. */
  datatype VersionTarget = VersionTarget(recordID: int, version: int)

  /** One table's entry in a write manipulation. */
  datatype TableWrite = TableWrite(command: string, fields: map<string, string>, id: Option<int>, target: Option<VersionTarget>)

  /** A write manipulation: one entry per table name. */
  type Manipulation = map<string, TableWrite>

  /** The fields a moderator may change without minting a new version. */
  const ScoreOnlyFields: set<string> := {"ModerationScore", "SpamScore", "LastEdited"}

  /** The versions table of a class. */
  function VersionsTable(cls: string): (v: string)
    ensures v != cls
  {
    cls + "_versions"
  }

  /** The write is handed to `Versioned` to mint a version, or redirected to patch the current version. */
  datatype WritePlan = NewVersion(manipulation: Manipulation) | PatchVersion(manipulation: Manipulation)

  /**
   * `augmentWrite`: a write that touches anything besides the scores and the
   * edit time mints a new version; otherwise the class's entry moves to the
   * versions table and targets the owner's current version.
   */
  function AugmentWrite(cls: string, ownerID: int, ownerVersion: int, m: Manipulation): (plan: WritePlan)
    requires cls in m
    ensures plan.NewVersion? <==> exists f :: f in m[cls].fields && f !in ScoreOnlyFields
    ensures plan.NewVersion? ==> plan.manipulation == m
    ensures plan.PatchVersion? ==>
      var v := VersionsTable(cls);
      && plan.manipulation.Keys == m.Keys - {cls} + {v}
      && plan.manipulation[v] == m[cls].(id := None, target := Some(VersionTarget(ownerID, ownerVersion)))
      && forall k :: k in m && k != cls && k != v ==> plan.manipulation[k] == m[k]
  {
    if exists f :: f in m[cls].fields && f !in ScoreOnlyFields then NewVersion(m)
    else
      var v := VersionsTable(cls);
      var moved := m[cls].(id := None, target := Some(VersionTarget(ownerID, ownerVersion)));
      PatchVersion((m - {cls})[v := moved])
  }

  /** A write of scores (and edit time) only, including an empty write, never mints a version. */
  lemma ScoreWritesPatchInPlace(cls: string, ownerID: int, ownerVersion: int, m: Manipulation)
    requires cls in m && m[cls].fields.Keys <= ScoreOnlyFields
    ensures AugmentWrite(cls, ownerID, ownerVersion, m).PatchVersion?
    ensures AugmentWrite(cls, ownerID, ownerVersion, m).manipulation[VersionsTable(cls)].fields == m[cls].fields
    ensures cls !in AugmentWrite(cls, ownerID, ownerVersion, m).manipulation
  {
  }

  /** `allVersions($cond)->First()`: the position of the first version the condition keeps. */
  function FirstMatching(history: seq<Entry>, c: Cond): (k: Option<nat>)
    ensures k.None? <==> forall i :: 0 <= i < |history| ==> !Holds(c, history[i].row)
    ensures k.Some? ==> k.value < |history| && Holds(c, history[k.value].row)
    ensures k.Some? ==> forall j :: 0 <= j < k.value ==> !Holds(c, history[j].row)
  {
    if |history| == 0 then None
    else if Holds(c, history[0].row) then Some(0)
    else
      var rest := FirstMatching(history[1..], c);
      assert forall i :: 1 <= i < |history| ==> history[i] == history[1..][i - 1];
      if rest.None? then None else Some(rest.value + 1)
  }

  /** The record, the mode context and the suppress flag after `onAfterWrite`. */
  datatype AfterWrite = AfterWrite(rec: VersionedRecord, context: Context, suppress: bool)

  /** The fatal error of calling `publish` on the absent approved version, with the state reached by then. */
  datatype WriteError = PublishOnNull(partial: VersionedRecord, context: Context, suppress: bool)

  /** No version of the history is approved. */
  predicate NoneApproved(t: Thresholds, history: seq<Entry>) {
    forall i :: 0 <= i < |history| ==> Classify(t, history[i].row) != Approved
  }

  /**
   * `onAfterWrite` as written: under mode "any", publish the first approved
   * version to Live (or delete Live), then publish the first version to Stage
   * (or delete Stage) by calling `publish` on the approved version, which is
   * null when versions exist but none is approved.
   */
  function OnAfterWrite(t: Thresholds, suppress: bool, ctx: Context, rec: VersionedRecord): (r: Result<AfterWrite, WriteError>)
    ensures suppress ==> r == Success(AfterWrite(rec, ctx, true))
    ensures !suppress ==> (r.Failure? <==> |rec.history| > 0 && NoneApproved(t, rec.history))
    ensures r.Failure? ==>
      && r.error.partial == rec.(live := None)
      && r.error.context == PushState(ctx, "any")
      && r.error.suppress
  {
    if suppress then Success(AfterWrite(rec, ctx, true))
    else
      var scoped := PushState(ctx, "any");
      var approved := FirstMatching(rec.history, Where(t, Approved));
      var afterLive := rec.(live := if approved.None? then None else Some(rec.history[approved.value]));
      ConditionsAgreeWithClassifier(t);
      if |rec.history| == 0 then
        Success(AfterWrite(afterLive.(stage := None), PopState(scoped), false))
      else if approved.None? then
        Failure(PublishOnNull(afterLive, scoped, true))
      else
        Success(AfterWrite(afterLive.(stage := Some(rec.history[0])), PopState(scoped), false))
  }

  /**
   * Reconciliation with `publish` called on the record itself: Live becomes
   * the first approved version or is deleted, Stage becomes the first version
   * or is deleted, the mode context is restored and the flag is left clear.
   */
  function Reconcile(t: Thresholds, suppress: bool, ctx: Context, rec: VersionedRecord): (after: AfterWrite)
    ensures suppress ==> after == AfterWrite(rec, ctx, true)
    ensures !suppress ==> after.context == ctx && !after.suppress && after.rec.history == rec.history
    ensures !suppress ==> (after.rec.live.None? <==> NoneApproved(t, rec.history))
    ensures !suppress && after.rec.live.Some? ==>
      exists i :: 0 <= i < |rec.history| && rec.history[i] == after.rec.live.value
        && Classify(t, rec.history[i].row) == Approved
        && forall j :: 0 <= j < i ==> Classify(t, rec.history[j].row) != Approved
    ensures !suppress ==> after.rec.stage == if |rec.history| == 0 then None else Some(rec.history[0])
  {
    if suppress then AfterWrite(rec, ctx, true)
    else
      var scoped := PushState(ctx, "any");
      var approved := FirstMatching(rec.history, Where(t, Approved));
      var live := if approved.None? then None else Some(rec.history[approved.value]);
      var stage := if |rec.history| == 0 then None else Some(rec.history[0]);
      ConditionsAgreeWithClassifier(t);
      PopUndoesPush(ctx, "any");
      AfterWrite(VersionedRecord(rec.history, stage, live), PopState(scoped), false)
  }

  /** Wherever the source's `onAfterWrite` completes, it does what `Reconcile` does. */
  lemma OnAfterWriteAgreesWhenItSucceeds(t: Thresholds, suppress: bool, ctx: Context, rec: VersionedRecord)
    ensures OnAfterWrite(t, suppress, ctx, rec).Success? ==>
      OnAfterWrite(t, suppress, ctx, rec).value == Reconcile(t, suppress, ctx, rec)
  {
    if !suppress {
      PopUndoesPush(ctx, "any");
    }
  }

  /** Once the null `publish` fails with the flag set, every later `onAfterWrite` returns without reconciling. */
  lemma FailedPublishDisablesLaterReconciliation(t: Thresholds, ctx: Context, rec: VersionedRecord, later: VersionedRecord)
    requires OnAfterWrite(t, false, ctx, rec).Failure?
    ensures var e := OnAfterWrite(t, false, ctx, rec).error;
            OnAfterWrite(t, e.suppress, e.context, later) == Success(AfterWrite(later, e.context, true))
  {
  }

  /** Saving a new record whose only version is unapproved reaches the `publish` call on null. */
  lemma NewUnapprovedRecordHitsNullPublish(t: Thresholds, ctx: Context)
    requires t.moderation > 0.0 && t.spam > 0.0
    ensures var rec := VersionedRecord([Entry(1, NewRow(7, map[]))], None, None);
            && OnAfterWrite(t, false, ctx, rec).Failure?
            && Reconcile(t, false, ctx, rec).rec == rec.(stage := Some(Entry(1, NewRow(7, map[]))))
  {
  }

  /** The versions are listed newest first, with no version twice. */
  predicate NewestFirst(history: seq<Entry>) {
    forall i, j :: 0 <= i < j < |history| ==> history[i].version > history[j].version
  }

  /** With versions newest first, Live is the highest approved version and Stage the highest version. */
  lemma ReconcilePublishesHighestVersions(t: Thresholds, ctx: Context, rec: VersionedRecord)
    requires NewestFirst(rec.history)
    ensures var after := Reconcile(t, false, ctx, rec).rec;
      && (after.live.Some? ==> forall i :: 0 <= i < |rec.history| && Classify(t, rec.history[i].row) == Approved
                                         ==> rec.history[i].version <= after.live.value.version)
      && (after.stage.Some? ==> forall i :: 0 <= i < |rec.history| ==> rec.history[i].version <= after.stage.value.version)
      && (after.live.Some? ==> after.stage.Some? && after.live.value.version <= after.stage.value.version)
  {
    var after := Reconcile(t, false, ctx, rec).rec;
    if after.live.Some? {
      var i :| 0 <= i < |rec.history| && rec.history[i] == after.live.value
        && Classify(t, rec.history[i].row) == Approved
        && forall j :: 0 <= j < i ==> Classify(t, rec.history[j].row) != Approved;
      forall k | 0 <= k < |rec.history| && Classify(t, rec.history[k].row) == Approved
        ensures rec.history[k].version <= after.live.value.version
      {
        assert i <= k;
      }
    }
  }

  /** Whether the mode lets some row of the record through a conjunctive query. */
  predicate Listed(cfg: Config, mode: string, rec: VersionedRecord) {
    var r := AugmentSQL(cfg, Some(mode), AndQuery, cfg.defaultStage, rec);
    r.Success? && r.value.row.Some?
  }

  /**
   * After reconciliation (versions newest first), a record is listed in exactly
   * the queue the classifier assigns its newest version: approved_if_latest,
   * unapproved or spam; and under "approved" iff some version is approved.
   */
  lemma {:induction false} ReconciledRecordIsInOneQueue(cfg: Config, ctx: Context, rec: VersionedRecord)
    requires |rec.history| > 0 && NewestFirst(rec.history)
    ensures var after := Reconcile(cfg.thresholds, false, ctx, rec).rec;
            var newest := Classify(cfg.thresholds, rec.history[0].row);
      && (Listed(cfg, "approved_if_latest", after) <==> newest == Approved)
      && (Listed(cfg, "unapproved", after) <==> newest == Unapproved)
      && (Listed(cfg, "spam", after) <==> newest == Spam)
      && (Listed(cfg, "approved", after) <==> !NoneApproved(cfg.thresholds, rec.history))
  {
    var t := cfg.thresholds;
    var after := Reconcile(t, false, ctx, rec).rec;
    ReconcilePublishesHighestVersions(t, ctx, rec);
    if after.live.Some? {
      var i :| 0 <= i < |rec.history| && rec.history[i] == after.live.value
        && Classify(t, rec.history[i].row) == Approved
        && forall j :: 0 <= j < i ==> Classify(t, rec.history[j].row) != Approved;
      if Classify(t, rec.history[0].row) == Approved {
        assert i == 0;
      } else {
        assert i > 0;
      }
    }
  }

  /** A mode pushed without checking, or the `null` left by popping an empty stack, fails at the filter. */
  lemma UncheckedModesFailAtFilter(cfg: Config, ctx: Context, m: string, rec: VersionedRecord)
    requires !KnownMode(m)
    ensures AugmentSQL(cfg, PushState(ctx, m).mode, AndQuery, cfg.defaultStage, rec) == Failure(UnknownMode(Some(m)))
    ensures AugmentSQL(cfg, PopState(Initial).mode, AndQuery, cfg.defaultStage, rec) == Failure(UnknownMode(None))
  {
  }

  /**
   * Version 1 is approved and published to both stages; an unapproved edit
   * (version 2) moves only Stage; approving version 2 publishes it to Live too.
   */
  lemma ApproveEditApproveLifecycle(ctx: Context, fields: map<string, string>, edited: map<string, string>)
    ensures var t := ConstructVersioned(None, None).thresholds;
            var v1 := Entry(1, Approve(t, NewRow(5, fields)));
            var v2 := Entry(2, NewRow(5, edited));
            var v2approved := Entry(2, Approve(t, NewRow(5, edited)));
      && Reconcile(t, false, ctx, VersionedRecord([v1], None, None)).rec == VersionedRecord([v1], Some(v1), Some(v1))
      && Reconcile(t, false, ctx, VersionedRecord([v2, v1], Some(v1), Some(v1))).rec
           == VersionedRecord([v2, v1], Some(v2), Some(v1))
      && Reconcile(t, false, ctx, VersionedRecord([v2approved, v1], Some(v2), Some(v1))).rec
           == VersionedRecord([v2approved, v1], Some(v2approved), Some(v2approved))
  {
    var t := ConstructVersioned(None, None).thresholds;
    ExactlyOneState(t, Approve(t, NewRow(5, fields)));
    ExactlyOneState(t, NewRow(5, edited));
    ExactlyOneState(t, Approve(t, NewRow(5, edited)));
  }
}
