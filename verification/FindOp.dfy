/** kmsp11/operation/find.h: an open find operation, handing out its handles slice by slice. */
module FindOp {
  import opened Basics

  /** The offset after a request for at most `max` more of the handles. */
  function NextEnd(objects: seq<Handle>, offset: nat, max: nat): nat {
    if |objects| - offset <= max then |objects| else offset + max
  }

  class FindOp {
    const objects: seq<Handle>
    var offset: nat

    constructor (objects: seq<Handle>)
      ensures this.objects == objects && offset == 0
    {
      this.objects, offset := objects, 0;
    }

    method Next(max: nat) returns (result: seq<Handle>)
      requires offset <= |objects|
      modifies this
      ensures old(offset) <= offset <= |objects| && offset == NextEnd(objects, old(offset), max)
      ensures |result| <= max && result == objects[old(offset)..offset]
      ensures |result| < max ==> offset == |objects|
    {
      var remaining := |objects| - offset;
      if remaining <= max {
        result := objects[offset..];
        offset := |objects|;
        return;
      }
      result := objects[offset..offset + max];
      offset := offset + max;
    }

    /** Any sequence of requests returns the handles in order, each once, and all of them as
        soon as enough have been asked for. */
    method Drain(counts: seq<nat>) returns (result: seq<Handle>)
      requires offset == 0
      modifies this
      ensures offset <= |objects| && result == objects[..offset]
      ensures offset == if Total(counts) <= |objects| then Total(counts) else |objects|
    {
      result := [];
      for i := 0 to |counts|
        invariant offset <= |objects| && result == objects[..offset]
        invariant offset == if Total(counts[..i]) <= |objects| then Total(counts[..i]) else |objects|
      {
        assert counts[..i + 1][..i] == counts[..i];
        var some := Next(counts[i]);
        result := result + some;
      }
      assert counts[..|counts|] == counts;
    }
  }

  function Total(counts: seq<nat>): nat {
    if counts == [] then 0 else Total(counts[..|counts| - 1]) + counts[|counts| - 1]
  }
}
