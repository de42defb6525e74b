/**
 * The training data: rows of input vectors and the outputs expected for
 * them, kept in two parallel lists that grow at the end.
 */
module Data {

  class Dataset {
    var Inputs: seq<array<real>>
    var ExpectedOutputs: seq<array<real>>

    /** Row r pairs Inputs[r] with ExpectedOutputs[r]. */
    ghost predicate Valid()
      reads this
    {
      |Inputs| == |ExpectedOutputs|
    }

    constructor ()
      ensures Valid() && Inputs == [] && ExpectedOutputs == []
    {
      Inputs := [];
      ExpectedOutputs := [];
    }

    /** Appends one row, leaving the earlier rows as they were. */
    method Add(input: array<real>, expectedOutput: array<real>)
      requires Valid()
      modifies this
      ensures Valid()
      ensures Inputs == old(Inputs) + [input] && ExpectedOutputs == old(ExpectedOutputs) + [expectedOutput]
      ensures NumberOfOutputs() ==
        if |old(ExpectedOutputs)| >= 1 then old(NumberOfOutputs()) else expectedOutput.Length
    {
      Inputs := Inputs + [input];
      ExpectedOutputs := ExpectedOutputs + [expectedOutput];
    }

    /** The width of the expected outputs, read off the first row. */
    function NumberOfOutputs(): (n: nat)
      requires |ExpectedOutputs| >= 1
      reads this
      ensures n == ExpectedOutputs[0].Length
    {
      ExpectedOutputs[0].Length
    }
  }
}
