/** The field iterator: steps through a message's fields and wraps around, to find a tag from wherever
    it stands. */
module PbFields {
  import opened PbFormat

  /** How many of the fields are required. */
  function CountRequired(fs: seq<Field>): nat {
    if fs == [] then 0 else CountRequired(fs[..|fs| - 1]) + if fs[|fs| - 1].rule.Required? then 1 else 0
  }

  /** The k-th of n fields from start on, going around. */
  function Around(start: nat, k: nat, n: nat): (r: nat)
    requires start < n && k <= n
    ensures r < n
  {
    if start + k < n then start + k else start + k - n
  }

  class FieldIter {
    const fields: seq<Field>
    var pos: nat
    var requiredIndex: nat

    ghost predicate Valid()
      reads this
    {
      (fields == [] ==> pos == 0) && (fields != [] ==> pos < |fields|) && requiredIndex == CountRequired(fields[..pos])
    }

    constructor (fields: seq<Field>)
      ensures Valid() && pos == 0 && this.fields == fields
    {
      this.fields := fields;
      pos, requiredIndex := 0, 0;
    }

    /** One field on; false when that wrapped around to the first. */
    method Next() returns (more: bool)
      requires Valid()
      modifies this
      ensures Valid() && more == (old(pos) + 1 < |fields|)
      ensures pos == if more then old(pos) + 1 else 0
    {
      if fields == [] {
        return false;
      }
      if pos + 1 == |fields| {
        pos, requiredIndex := 0, 0;
        return false;
      }
      assert fields[..pos + 1][..pos] == fields[..pos];
      if fields[pos].rule.Required? {
        requiredIndex := requiredIndex + 1;
      }
      pos := pos + 1;
      more := true;
    }

    /** Searches all the way around for the tag, from the field it stands on. */
    method Find(tag: nat) returns (found: bool)
      requires Valid()
      modifies this
      ensures Valid()
      ensures found <==> exists i :: 0 <= i < |fields| && fields[i].tag == tag
      ensures found ==> pos < |fields| && fields[pos].tag == tag
      ensures !found ==> pos == old(pos)
    {
      if fields == [] {
        return false;
      }
      var start := pos;
      ghost var n := 0;
      while true
        invariant Valid() && 0 <= n < |fields| && pos == Around(start, n, |fields|)
        invariant forall k :: 0 <= k < n ==> fields[Around(start, k, |fields|)].tag != tag
        decreases |fields| - n
      {
        if fields[pos].tag == tag {
          return true;
        }
        var _ := Next();
        n := n + 1;
        if pos == start {
          break;
        }
      }
      forall i | 0 <= i < |fields| ensures fields[i].tag != tag {
        var k := if i >= start then i - start else i - start + |fields|;
        assert i == Around(start, k, |fields|);
      }
      found := false;
    }
  }
}
