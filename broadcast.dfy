/** Broadcast de-duplication: the set of messages a node has seen, and the rule
    that picks the neighbours a newly seen message is forwarded to. */
module Broadcast {

  /** The neighbours of `destinations` other than `src`, in order, each as
      often as it is listed. */
  function OtherThan(destinations: seq<string>, src: string): (targets: seq<string>)
    ensures |targets| <= |destinations|
    ensures src !in targets
  {
    if destinations == [] then []
    else
      var init := OtherThan(destinations[..|destinations| - 1], src);
      var last := destinations[|destinations| - 1];
      if last != src then init + [last] else init
  }

  /** Forwarding reaches exactly the listed neighbours other than the sender,
      each as often as it is listed. */
  lemma {:induction false} OtherThanMembers(destinations: seq<string>, src: string)
    ensures forall d :: d in OtherThan(destinations, src) <==> d in destinations && d != src
    ensures multiset(OtherThan(destinations, src)) == multiset(destinations)[src := 0]
  {
    if destinations != [] {
      var init := destinations[..|destinations| - 1];
      var last := destinations[|destinations| - 1];
      OtherThanMembers(init, src);
      assert destinations == init + [last];
      assert multiset(destinations) == multiset(init) + multiset{last};
    }
  }

  /** The node's seen-message set; every access holds its lock. */
  class SafeMessageMap {
    var v: set<int>

    constructor ()
      ensures v == {}
    {
      v := {};
    }

    /** Test-and-insert: reports whether `message` was already seen, and marks
        it seen. A second call with the same message returns true and changes
        nothing. */
    method Exists(message: int) returns (seen: bool)
      modifies this
      ensures seen <==> message in old(v)
      ensures v == old(v) + {message}
      ensures seen ==> v == old(v)
    {
      seen := message in v;
      if !seen {
        v := v + {message};
      }
    }

    /** Every seen message exactly once, in no particular order. */
    method KeyList() returns (keys: seq<int>)
      ensures forall m :: m in keys <==> m in v
      ensures forall i, j :: 0 <= i < j < |keys| ==> keys[i] != keys[j]
      ensures |keys| == |v|
    {
      keys := [];
      var pending := v;
      while pending != {}
        invariant pending <= v
        invariant forall m :: m in keys <==> m in v - pending
        invariant forall i, j :: 0 <= i < j < |keys| ==> keys[i] != keys[j]
        invariant |keys| + |pending| == |v|
        decreases pending
      {
        assert (forall x :: x !in pending) ==> pending == {};
        var m :| m in pending;
        assert m !in keys;
        keys := keys + [m];
        pending := pending - {m};
      }
    }

    /** The `broadcast` handler's decision: a message seen before is only
        acknowledged; a new one is marked seen and forwarded to every neighbour
        in `destinations` other than the sender `src`. */
    method HandleBroadcast(message: int, src: string, destinations: seq<string>) returns (forwardTo: seq<string>)
      modifies this
      ensures v == old(v) + {message}
      ensures forwardTo == if message in old(v) then [] else OtherThan(destinations, src)
    {
      var seen := Exists(message);
      forwardTo := [];
      if seen {
        return;
      }
      for i := 0 to |destinations|
        invariant forwardTo == OtherThan(destinations[..i], src)
      {
        assert destinations[..i + 1][..i] == destinations[..i];
        var adjNode := destinations[i];
        if adjNode != src {
          forwardTo := forwardTo + [adjNode];
        }
      }
      assert destinations[..|destinations|] == destinations;
    }
  }
}
