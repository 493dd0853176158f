/** The buffered body reader of the HTTPS response. */
module Transport {
  import opened Basics

  function Concat(pieces: seq<seq<Byte>>): seq<Byte> {
    if pieces == [] then [] else pieces[0] + Concat(pieces[1..])
  }

  lemma {:induction false} ConcatSplit(a: seq<seq<Byte>>, b: seq<seq<Byte>>)
    ensures Concat(a + b) == Concat(a) + Concat(b)
    decreases |a|
  {
    if a == [] {
      assert a + b == b;
    } else {
      assert (a + b)[1..] == a[1..] + b;
      ConcatSplit(a[1..], b);
    }
  }

  lemma ConcatSnoc(pieces: seq<seq<Byte>>, last: seq<Byte>)
    ensures Concat(pieces + [last]) == Concat(pieces) + last
  {
    ConcatSplit(pieces, [last]);
    assert [last] == [last] + [] && Concat([last]) == last + Concat([]);
  }

  /** `HTTPSResponse` as its reads see it: network pieces still to come, the unread part of the
      last piece, and whether the body has ended. A piece may be empty. */
  class HttpsBody {
    var source: seq<seq<Byte>>
    var pending: seq<Byte>
    var ended: bool
    var closed: bool

    ghost predicate Valid()
      reads this
    {
      ended ==> source == [] && pending == []
    }

    ghost function Remaining(): seq<Byte>
      reads this
    {
      pending + Concat(source)
    }

    constructor (pieces: seq<seq<Byte>>)
      ensures Valid() && !closed && Remaining() == Concat(pieces)
    {
      source, pending, ended, closed := pieces, [], false, false;
    }

    /** `read` with `_read`: a bound is mandatory, a closed response refuses, and otherwise the
        result is exactly the next `amount` bytes of the body; it comes back short only at the
        end of the body, and what it leaves is the rest. */
    method Read(amount: int) returns (r: Option<seq<Byte>>)
      requires Valid()
      modifies this
      ensures Valid() && closed == old(closed)
      ensures r.None? <==> amount < 0 || closed
      ensures r.None? ==> Remaining() == old(Remaining())
      ensures r.Some? ==> r.value + Remaining() == old(Remaining())
      ensures r.Some? ==> |r.value| == if amount <= |old(Remaining())| then amount else |old(Remaining())|
    {
      if amount < 0 || closed { return None; }
      var result: seq<Byte> := [];
      while |result| < amount
        invariant Valid() && |result| <= amount && closed == old(closed)
        invariant result + Remaining() == old(Remaining())
        decreases amount - |result|, |source|, if ended then 0 else 1
      {
        if pending != [] {
          var length := if amount - |result| <= |pending| then amount - |result| else |pending|;
          assert result + pending[..length] + (pending[length..] + Concat(source)) == result + Remaining();
          result := result + pending[..length];
          pending := pending[length..];
        } else if ended {
          break;
        } else if source != [] {
          assert Remaining() == source[0] + Concat(source[1..]);
          pending := source[0];
          source := source[1..];
        } else {
          ended := true;
        }
      }
      return Some(result);
    }
  }
}
