/**
 * BaseStreamSink: a sink that fans every rendered image out to the outputs
 * registered with it.  Outputs are identified by number; what each call of
 * an output's own Render answers is a parameter of this sink's Render, one
 * answer per call, so an output registered twice may answer differently.
 */
module BaseStreamSink {
  import opened Common

  /** A non-null BaseStreamSink* held in outputs_. */
  type SinkId = nat

  /** outputs_.size() as the uint32_t the sink keeps it in. */
  function NumOutputs(outputs: seq<SinkId>): (n: u32)
    ensures |outputs| < U32Mod ==> n == |outputs|
  {
    |outputs| % U32Mod
  }

  /** `result` after the first n calls, where call i answers answers(i). */
  function AllRender(answers: nat -> bool, n: nat): bool
  {
    n == 0 || (AllRender(answers, n - 1) && answers(n - 1))
  }

  lemma {:induction false} AllRenderEvery(answers: nat -> bool, n: nat)
    ensures AllRender(answers, n) <==> forall i :: 0 <= i < n ==> answers(i)
  {
    if n > 0 {
      AllRenderEvery(answers, n - 1);
    }
  }

  class BaseStreamSink {
    var outputs: seq<SinkId>

    constructor ()
      ensures outputs == []
    {
      outputs := [];
    }

    /** AddOutput: appends a non-null output; nullptr is ignored. */
    method AddOutput(output: Option<SinkId>)
      modifies this
      ensures output.Some? ==> outputs == old(outputs) + [output.value]
      ensures output.None? ==> outputs == old(outputs)
    {
      if output.Some? {
        outputs := outputs + [output.value];
      }
    }

    /** GetNumOutputs: the number of outputs added (the argument is unused). */
    method GetNumOutputs(output: Option<SinkId>) returns (n: u32)
      ensures n == NumOutputs(outputs)
      ensures |outputs| < U32Mod ==> n == |outputs|
    {
      n := |outputs| % U32Mod;
    }

    /** GetOutput: outputs_[index], which the caller must keep in range. */
    method GetOutput(index: u32) returns (output: SinkId)
      requires index < |outputs|
      ensures output == outputs[index]
    {
      output := outputs[index];
    }

    /**
     * Render: every output's Render is called once, in registration order,
     * even after a failure (call n answers answers(n)); the result is true
     * iff all of the calls succeed.
     */
    method Render(answers: nat -> bool) returns (result: bool, ghost called: seq<SinkId>)
      ensures called == outputs[..NumOutputs(outputs)]
      ensures result <==> forall i :: 0 <= i < NumOutputs(outputs) ==> answers(i)
      ensures outputs == [] ==> result
    {
      var numOutputs := |outputs| % U32Mod;
      result := true;
      called := [];
      var n := 0;
      while n < numOutputs
        invariant 0 <= n <= numOutputs
        invariant called == outputs[..n]
        invariant result == AllRender(answers, n)
      {
        called := called + [outputs[n]];
        if !answers(n) {
          result := false;
        }
        n := n + 1;
      }
      AllRenderEvery(answers, numOutputs);
    }

    /** SetStatus does nothing. */
    method SetStatus(str: Option<string>)
      ensures outputs == old(outputs)
    {
    }
  }
}
