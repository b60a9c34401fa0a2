/** The published generations: one writer, any number of readers. */
module SharedState {
  import opened Bytes
  import opened Framing
  import opened OutputQueue

  /** A published snapshot: its sequence number and its encoded payload. */
  datatype Generation = Generation(sequence: nat, payload: bytes)

  function BufferOf(g: Generation): Buffer { Buffer(g.sequence, FrameOf(g.payload)) }

  /** Generations are numbered upwards from 1, and each payload fits in a frame. */
  ghost predicate History(h: seq<Generation>) {
    && (forall i {:trigger h[i].sequence} {:trigger h[i].payload} :: 0 <= i < |h| ==>
          h[i].sequence >= 1 && PayloadOk(h[i].payload))
    && (forall i, j {:trigger h[i].sequence, h[j].sequence} :: 0 <= i < j < |h| ==> h[i].sequence < h[j].sequence)
  }

  function LatestSequence(h: seq<Generation>): nat { if h == [] then 0 else h[|h| - 1].sequence }

  /** The generations that readers see of some publications: a payload without a frame uses up its number. */
  function Added(sequence: nat, payloads: seq<bytes>): seq<Generation> {
    if payloads == [] then []
    else
      var n := |payloads|;
      Added(sequence, payloads[..n - 1])
      + if PayloadOk(payloads[n - 1]) then [Generation(sequence + n, payloads[n - 1])] else []
  }

  lemma AddedSnoc(sequence: nat, payloads: seq<bytes>, p: bytes)
    ensures Added(sequence, payloads + [p])
            == Added(sequence, payloads) + if PayloadOk(p) then [Generation(sequence + |payloads| + 1, p)] else []
  {
    assert (payloads + [p])[..|payloads|] == payloads;
  }

  lemma {:induction false} AddedAppend(sequence: nat, a: seq<bytes>, b: seq<bytes>)
    ensures Added(sequence, a + b) == Added(sequence, a) + Added(sequence + |a|, b)
    decreases |b|
  {
    if b == [] {
      assert a + b == a;
    } else {
      var front, p := b[..|b| - 1], b[|b| - 1];
      assert a + b == (a + front) + [p] && b == front + [p];
      AddedAppend(sequence, a, front);
      AddedSnoc(sequence, a + front, p);
      AddedSnoc(sequence + |a|, front, p);
    }
  }

  class SharedState {
    var latest: Option<Generation>
    var sequence: nat  // the counter of the sampling worker
    ghost var history: seq<Generation>

    ghost predicate Valid() reads this {
      && History(history) && latest == Last(history) && LatestSequence(history) <= sequence
    }

    constructor ()
      ensures Valid() && history == []
    {
      latest, sequence, history := None, 0, [];
    }

    /**
     * One publication by the worker: the next sequence number is used up even when the frame cannot be
     * built (the source throws), and then no reader sees the generation.
     */
    method Publish(payload: bytes) returns (ok: bool)
      requires Valid()
      modifies this
      ensures Valid() && sequence == old(sequence) + 1
      ensures ok <==> PayloadOk(payload)
      ensures history == if ok then old(history) + [Generation(sequence, payload)] else old(history)
    {
      sequence := sequence + 1;
      var frame := Frame(payload);
      if frame.None? {
        return false;
      }
      latest := Some(Generation(sequence, payload));
      history := history + [Generation(sequence, payload)];
      ok := true;
    }

    /** Publications of the worker thread that fall between two steps of a reader. */
    method PublishAll(payloads: seq<bytes>)
      requires Valid()
      modifies this
      ensures Valid() && sequence == old(sequence) + |payloads|
      ensures history == old(history) + Added(old(sequence), payloads)
    {
      for i := 0 to |payloads|
        invariant Valid() && sequence == old(sequence) + i
        invariant history == old(history) + Added(old(sequence), payloads[..i])
      {
        AddedSnoc(old(sequence), payloads[..i], payloads[i]);
        assert payloads[..i + 1] == payloads[..i] + [payloads[i]];
        var ok := Publish(payloads[i]);
      }
      assert payloads[..|payloads|] == payloads;
    }
  }
}
