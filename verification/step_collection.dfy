/** Steps and the append-only collection a scenario keeps them in. */
module StepCollections {
  import opened Wrappers

  /** What kind of step a line is; `Unknown` until a Given, When or Then has
      been seen in the current scenario. */
  datatype StepType = Given | When | Then | Unknown

  /** The block (a form or a grid) that can follow a step, by the index of its
      first line and its size; `NoBlock` is the absent (null) block. */
  datatype Block = NoBlock | Form(first: nat, size: nat) | Grid(first: nat, rowCount: nat)

  datatype Step = Step(stepType: StepType, text: string, block: Block)

  /** An ordered collection of steps, appended to in place. */
  class StepCollection {
    var steps: seq<Step>

    constructor()
      ensures steps == []
    {
      steps := [];
    }

    /** `Add(type, step, block)`: builds one step from the three values and
        appends it. */
    method Add(stepType: StepType, text: string, block: Block)
      modifies this
      ensures steps == old(steps) + [Step(stepType, text, block)]
      ensures Count() == old(Count()) + 1
      ensures Get(Count() - 1) == Some(Step(stepType, text, block))
      ensures forall i :: 0 <= i < old(Count()) ==> Get(i) == old(Get(i))
    {
      AddStep(Step(stepType, text, block));
    }

    /** `Add(step)`: appends the step after every step already present. */
    method AddStep(step: Step)
      modifies this
      ensures steps == old(steps) + [step]
      ensures Count() == old(Count()) + 1
      ensures Get(Count() - 1) == Some(step)
      ensures forall i :: 0 <= i < old(Count()) ==> Get(i) == old(Get(i))
    {
      steps := steps + [step];
    }

    function Count(): (n: nat)
      reads this
      ensures n == |steps|
    {
      |steps|
    }

    /** The indexer: the step at `index`, or `None` where the list would throw
        because the index is out of range. */
    function Get(index: int): (r: Option<Step>)
      reads this
      ensures r.Some? <==> 0 <= index < Count()
      ensures r.Some? ==> r.value == steps[index]
    {
      if 0 <= index < |steps| then Some(steps[index]) else None
    }

    /** The order the enumerator yields the steps in: the indexer's order,
        which is insertion order. */
    function Enumerate(): (r: seq<Step>)
      reads this
      ensures |r| == Count()
      ensures forall i :: 0 <= i < |r| ==> Get(i) == Some(r[i])
    {
      steps
    }
  }

  /** Adding steps one after another yields them in the order they were
      added, each with the values it was added with. */
  method AddInOrder(first: Step, second: Step) returns (c: StepCollection)
    ensures fresh(c)
    ensures c.Enumerate() == [first, second]
    ensures c.Get(0) == Some(first) && c.Get(1) == Some(second) && c.Get(2).None?
  {
    c := new StepCollection();
    c.AddStep(first);
    c.AddStep(second);
  }
}
