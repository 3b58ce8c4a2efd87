/**
  A composite group operation: the children given to the constructor are invoked one after the
  other; an exception a child throws is logged and swallowed, so later children still run.
  `catch (Exception e)` does not catch a `java.lang.Error`, which ends the loop and leaves
  `invoke` with that error.
*/
module CompositeOperations {

  /** What a child's `invoke` can throw, split by whether `catch (Exception e)` catches it. */
  datatype Throwable = Exception(message: string) | Error(message: string)

  /** How a call to `invoke` ends. */
  datatype Completion = Normal | Thrown(cause: Throwable)

  /** A child operation, reduced to its name and to how its `invoke` ends. */
  datatype Operation = Operation(name: string, completion: Completion)

  predicate EndsInError(op: Operation) {
    op.completion.Thrown? && op.completion.cause.Error?
  }

  /** The children invoked, the exceptions logged, and how the composite `invoke` ends. */
  datatype Trace = Trace(invoked: seq<Operation>, logged: seq<Throwable>, completion: Completion)

  /** One loop iteration after a trace that ended normally. */
  function Step(t: Trace, op: Operation): Trace {
    match op.completion
    case Normal => Trace(t.invoked + [op], t.logged, Normal)
    case Thrown(Exception(m)) => Trace(t.invoked + [op], t.logged + [Exception(m)], Normal)
    case Thrown(Error(m)) => Trace(t.invoked + [op], t.logged, Thrown(Error(m)))
  }

  /** What `invoke` does with the children `ops`. */
  function Run(ops: seq<Operation>): (t: Trace)
    ensures t.invoked <= ops
    ensures t.completion != Normal ==> |t.invoked| > 0 && EndsInError(t.invoked[|t.invoked| - 1])
    ensures t.completion.Thrown? ==> t.completion == t.invoked[|t.invoked| - 1].completion
    ensures t.completion == Normal ==> t.invoked == ops
  {
    if ops == [] then Trace([], [], Normal)
    else
      var before := Run(ops[..|ops| - 1]);
      if before.completion.Thrown? then before else Step(before, ops[|ops| - 1])
  }

  /** The composite never lets an exception out: the only thing it can throw is an Error. */
  lemma {:induction false} NeverThrowsException(ops: seq<Operation>)
    ensures Run(ops).completion == Normal || Run(ops).completion.cause.Error?
  {
    if ops != [] {
      NeverThrowsException(ops[..|ops| - 1]);
    }
  }

  /**
    Unless a child ends in an Error, every child is invoked exactly once, in array order, and the
    composite completes normally, whatever exceptions the children throw.
  */
  lemma {:induction false} InvokesEveryChild(ops: seq<Operation>)
    requires forall i :: 0 <= i < |ops| ==> !EndsInError(ops[i])
    ensures Run(ops).invoked == ops && Run(ops).completion == Normal
  {
    if ops != [] {
      var init := ops[..|ops| - 1];
      assert forall i :: 0 <= i < |init| ==> init[i] == ops[i];
      InvokesEveryChild(init);
      assert init + [ops[|ops| - 1]] == ops;
    }
  }

  /**
    The first child that ends in an Error is the last one invoked, and the composite ends with
    that Error: `catch (Exception e)` does not catch it.
  */
  lemma FirstErrorEndsInvoke(ops: seq<Operation>, j: nat)
    requires j < |ops| && EndsInError(ops[j])
    requires forall i :: 0 <= i < j ==> !EndsInError(ops[i])
    ensures Run(ops).invoked == ops[..j + 1] && Run(ops).completion == ops[j].completion
  {
    InvokesEveryChild(ops[..j]);
    RunStep(ops, j);
    ErrorStopsTheLoop(ops, j + 1);
  }

  /** A child that throws an exception does not keep the next one from being invoked. */
  lemma {:induction false} ExceptionDoesNotStopLaterChildren(ops: seq<Operation>, j: nat)
    requires j < |ops| && forall i :: 0 <= i < j ==> !EndsInError(ops[i])
    ensures j < |Run(ops).invoked| && Run(ops).invoked[j] == ops[j]
  {
    var init := ops[..|ops| - 1];
    if j < |init| {
      assert forall i :: 0 <= i < j ==> init[i] == ops[i];
      ExceptionDoesNotStopLaterChildren(init, j);
    } else {
      assert forall i :: 0 <= i < |init| ==> init[i] == ops[i];
      InvokesEveryChild(init);
    }
  }

  /** The exceptions of the invoked children, in order: those are what `LOG.error` is given. */
  function ExceptionsOf(ops: seq<Operation>): seq<Throwable> {
    if ops == [] then []
    else
      var last := ops[|ops| - 1];
      ExceptionsOf(ops[..|ops| - 1])
      + (if last.completion.Thrown? && last.completion.cause.Exception? then [last.completion.cause] else [])
  }

  /** Every exception of an invoked child is logged, once and in order, and nothing else is. */
  lemma {:induction false} LogsEachException(ops: seq<Operation>)
    ensures Run(ops).logged == ExceptionsOf(Run(ops).invoked)
  {
    if ops != [] {
      var init := ops[..|ops| - 1];
      LogsEachException(init);
      var before := Run(init);
      var last := ops[|ops| - 1];
      if !before.completion.Thrown? {
        assert Run(ops) == Step(before, last);
        var invoked := before.invoked + [last];
        assert Run(ops).invoked == invoked;
        assert invoked[..|invoked| - 1] == before.invoked && invoked[|invoked| - 1] == last;
      }
    }
  }

  /** With no children, nothing is invoked, nothing is logged, and the composite completes normally. */
  lemma NoChildrenDoNothing()
    ensures Run([]) == Trace([], [], Normal)
  {
  }

  /** Once an Error has ended the loop, the remaining children are never reached. */
  lemma {:induction false} ErrorStopsTheLoop(ops: seq<Operation>, i: nat)
    requires i <= |ops| && Run(ops[..i]).completion.Thrown?
    ensures Run(ops) == Run(ops[..i])
    decreases |ops| - i
  {
    if i < |ops| {
      var next := ops[..i + 1];
      assert next[..i] == ops[..i];
      ErrorStopsTheLoop(ops, i + 1);
    } else {
      assert ops[..i] == ops;
    }
  }

  /** One more iteration of the loop, while no Error has ended it. */
  lemma RunStep(ops: seq<Operation>, i: nat)
    requires i < |ops| && Run(ops[..i]).completion == Normal
    ensures Run(ops[..i + 1]) == Step(Run(ops[..i]), ops[i])
  {
    assert ops[..i + 1][..i] == ops[..i];
  }

  /** Where the model records the effects of the children. */
  class Journal {
    var invoked: seq<Operation>
    var logged: seq<Throwable>

    constructor ()
      ensures invoked == [] && logged == []
    {
      invoked := [];
      logged := [];
    }

    /** `op.invoke()`: records the call and ends as the child ends. */
    method InvokeChild(op: Operation) returns (c: Completion)
      modifies this
      ensures invoked == old(invoked) + [op] && logged == old(logged)
      ensures c == op.completion
    {
      invoked := invoked + [op];
      c := op.completion;
    }

    /** `LOG.error(e.getMessage(), e)`. */
    method LogError(e: Throwable)
      modifies this
      ensures invoked == old(invoked) && logged == old(logged) + [e]
    {
      logged := logged + [e];
    }
  }

  class CompositeOperation {
    const operations: array<Operation>

    constructor (operations: array<Operation>)
      ensures this.operations == operations
    {
      this.operations := operations;
    }

    /**
      `invoke`: the children in array order, each exception caught and logged; the array is
      left as it is.
    */
    method Invoke(journal: Journal) returns (completion: Completion)
      modifies journal
      ensures operations[..] == old(operations[..])
      ensures journal.invoked == old(journal.invoked) + Run(operations[..]).invoked
      ensures journal.logged == old(journal.logged) + Run(operations[..]).logged
      ensures completion == Run(operations[..]).completion
    {
      ghost var ops := operations[..];
      var i := 0;
      while i < operations.Length
        invariant i <= operations.Length && ops == operations[..]
        invariant Run(ops[..i]).completion == Normal
        invariant journal.invoked == old(journal.invoked) + Run(ops[..i]).invoked
        invariant journal.logged == old(journal.logged) + Run(ops[..i]).logged
      {
        var op := operations[i];
        ghost var before := Run(ops[..i]);
        RunStep(ops, i);
        var c := journal.InvokeChild(op);
        if c.Thrown? {
          if c.cause.Exception? {
            journal.LogError(c.cause);
            assert Run(ops[..i + 1]) == Trace(before.invoked + [op], before.logged + [c.cause], Normal);
          } else {
            assert Run(ops[..i + 1]) == Trace(before.invoked + [op], before.logged, c);
            ErrorStopsTheLoop(ops, i + 1);
            return c;
          }
        } else {
          assert Run(ops[..i + 1]) == Trace(before.invoked + [op], before.logged, Normal);
        }
        i := i + 1;
      }
      assert ops[..i] == ops;
      completion := Normal;
    }
  }
}
