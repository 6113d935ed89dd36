/**
 * The filter-mode context: the mode `augmentSQL` filters by, and a stack of
 * saved modes for nested save/restore. The process-wide statics become one
 * explicit value threaded through the calls.
 */
module ModeratableState {
  import opened Wrappers

  /** The class-wide default thresholds the versioned constructor falls back to. */
  const DefaultModerationScore: real := 1.0
  const DefaultSpamScore: real := 10.0

  /** The current mode (`null` after popping an empty stack) and the saved modes, oldest first. */
  datatype Context = Context(mode: Option<string>, saved: seq<Option<string>>)

  /** The five modes the filter knows; `push_state` does not check against them. */
  predicate KnownMode(m: string) {
    m == "approved" || m == "approved_if_latest" || m == "unapproved" || m == "spam" || m == "any"
  }

  /** The context before any push: mode "approved", nothing saved. */
  const Initial: Context := Context(Some("approved"), [])

  /** Before any push the mode is "approved" and nothing is saved; popping then leaves mode `null`. */
  lemma InitialContext()
    ensures Initial.mode == Some("approved") && |Initial.saved| == 0
    ensures PopState(Initial) == Context(None, [])
    ensures PopState(PushState(Initial, "any")) == Initial
  {
    PopUndoesPush(Initial, "any");
  }

  /** `push_state`: save the current mode on top of the stack and make `m` current, whatever `m` is. */
  function PushState(c: Context, m: string): (c': Context)
    ensures c'.mode == Some(m)
    ensures |c'.saved| == |c.saved| + 1
    ensures c'.saved[..|c.saved|] == c.saved && c'.saved[|c.saved|] == c.mode
  {
    Context(Some(m), c.saved + [c.mode])
  }

  /** `pop_state`: the top saved mode becomes current; on an empty stack the mode becomes `null`. */
  function PopState(c: Context): (c': Context)
    ensures |c.saved| > 0 ==> c'.mode == c.saved[|c.saved| - 1] && c'.saved == c.saved[..|c.saved| - 1]
    ensures |c.saved| == 0 ==> c'.mode == None && c'.saved == []
    ensures |c'.saved| == if |c.saved| == 0 then 0 else |c.saved| - 1
  {
    if |c.saved| == 0 then Context(None, [])
    else Context(c.saved[|c.saved| - 1], c.saved[..|c.saved| - 1])
  }

  /** A pop undoes the push before it: mode and stack are both restored. */
  lemma PopUndoesPush(c: Context, m: string)
    ensures PopState(PushState(c, m)) == c
  {
    assert (c.saved + [c.mode])[..|c.saved|] == c.saved;
  }

  /** Nesting is last-in first-out: after `push(a); push(b); pop()` the mode is `a` again. */
  lemma NestedPushPop(c: Context, a: string, b: string)
    ensures PopState(PushState(PushState(c, a), b)) == PushState(c, a)
  {
    PopUndoesPush(PushState(c, a), b);
  }

  /** Popping an empty stack does not fail: it leaves mode `null` and the stack empty (a corollary of `PopState`'s contract). */
  lemma PopOnEmptyYieldsNull(c: Context)
    requires |c.saved| == 0
    ensures PopState(c) == Context(None, [])
  {
  }

  /** One context operation. */
  datatype Op = Push(m: string) | Pop

  function Step(c: Context, op: Op): Context {
    match op
    case Push(m) => PushState(c, m)
    case Pop => PopState(c)
  }

  /** The context after a run of operations, applied first to last. */
  function Run(c: Context, ops: seq<Op>): Context
    decreases |ops|
  {
    if |ops| == 0 then c else Step(Run(c, ops[..|ops| - 1]), ops[|ops| - 1])
  }

  /** Pushes minus pops. */
  function Height(ops: seq<Op>): int
    decreases |ops|
  {
    if |ops| == 0 then 0
    else Height(ops[..|ops| - 1]) + (if ops[|ops| - 1].Pop? then -1 else 1)
  }

  /** No prefix of the run pops more than it has pushed. */
  predicate NeverBelow(ops: seq<Op>) {
    forall k :: 0 <= k <= |ops| ==> Height(ops[..k]) >= 0
  }

  /**
   * A run that never pops below its start keeps the saved stack beneath it,
   * stacks the starting mode at the bottom of what it adds, and, once it is
   * balanced, restores the starting context exactly.
   */
  lemma {:induction false} ScopedRunRestores(c: Context, ops: seq<Op>)
    requires NeverBelow(ops)
    ensures Height(ops) >= 0
    ensures |Run(c, ops).saved| == |c.saved| + Height(ops)
    ensures Run(c, ops).saved[..|c.saved|] == c.saved
    ensures Height(ops) > 0 ==> Run(c, ops).saved[|c.saved|] == c.mode
    ensures Height(ops) == 0 ==> Run(c, ops) == c
    decreases |ops|
  {
    assert ops[..|ops|] == ops;
    if |ops| == 0 {
      assert c.saved[..|c.saved|] == c.saved;
    } else {
      var prefix := ops[..|ops| - 1];
      assert NeverBelow(prefix) by {
        forall k | 0 <= k <= |prefix| ensures Height(prefix[..k]) >= 0 {
          assert prefix[..k] == ops[..k];
        }
      }
      assert ops[..|ops|] == ops;
      ScopedRunRestores(c, prefix);
      var before := Run(c, prefix);
      if ops[|ops| - 1].Pop? {
        assert Height(prefix) >= 1;
        assert before.saved[..|before.saved| - 1][..|c.saved|] == before.saved[..|c.saved|];
        if Height(ops) == 0 {
          assert before.saved[..|before.saved| - 1] == before.saved[..|c.saved|];
        } else {
          assert before.saved[..|before.saved| - 1][|c.saved|] == before.saved[|c.saved|];
        }
      } else {
        assert (before.saved + [before.mode])[..|c.saved|] == before.saved[..|c.saved|];
      }
    }
  }
}
