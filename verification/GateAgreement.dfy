/** Two gates that see the same reveals in different orders, and what they let through to the matching. */
module GateAgreement {
  import opened Basics
  import opened Sums
  import opened Sorting
  import opened RunGossip
  import RunMatching
  import O = Orchestrator

  /** A reveal on the wire. */
  datatype Message = Message(from: Sender, orderBytes: Bytes, signature: Bytes)

  /** What a gate in state `g` lets through of some messages, in order. */
  datatype Passage = Passage(gate: Gate, passed: seq<Message>)

  function Pass(g: Gate, ms: seq<Message>, crypto: Crypto): Passage {
    if ms == [] then Passage(g, [])
    else
      var before, m := Pass(g, ms[..|ms| - 1], crypto), ms[|ms| - 1];
      var (gate, ok) := Step(before.gate, Reveal(m.from, m.orderBytes, m.signature), crypto);
      Passage(gate, if ok then before.passed + [m] else before.passed)
  }

  /** In the window, properly signed, and not seen before. */
  predicate Genuine(g: Gate, m: Message, crypto: Crypto) {
    && InRange(g.current, m.from.1) && crypto.sha256(m.orderBytes) !in g.seenReveals
    && m.from.0 in g.pubkeys && crypto.verify(g.pubkeys[m.from.0], m.orderBytes, m.signature)
  }

  ghost predicate AllGenuine(g: Gate, ms: seq<Message>, crypto: Crypto) {
    && (forall k :: 0 <= k < |ms| ==> Genuine(g, ms[k], crypto))
    && (forall i, j :: 0 <= i < j < |ms| ==> crypto.sha256(ms[i].orderBytes) != crypto.sha256(ms[j].orderBytes))
  }

  // ----- a gate is a count ---------------------------------------------------------------

  function Sends(from: Sender): Message -> nat {
    (m: Message) => if m.from == from then 1 else 0
  }

  /** Messages of one sender. */
  ghost function Sent(ms: seq<Message>, from: Sender): nat {
    Total(ms, Sends(from))
  }

  /** What the limit still allows a sender. */
  function Room(g: Gate, from: Sender): nat {
    SaturatingSub(MAX_MSGS_PER_NFT_PER_BATCH, CountOf(g.counts, from))
  }

  /** The first messages of every sender, as many as there is room for. */
  ghost function Kept(g: Gate, ms: seq<Message>): seq<Message> {
    if ms == [] then []
    else
      var front, m := ms[..|ms| - 1], ms[|ms| - 1];
      Kept(g, front) + if Sent(front, m.from) < Room(g, m.from) then [m] else []
  }

  /** The gate after some genuine messages: it has seen none but theirs, and counts up to the limit. */
  ghost predicate Counting(g: Gate, after: Gate, ms: seq<Message>, crypto: Crypto) {
    && after.current == g.current && after.pubkeys == g.pubkeys
    && (forall h :: h in after.seenReveals ==> h in g.seenReveals || exists k :: 0 <= k < |ms| && crypto.sha256(ms[k].orderBytes) == h)
    && (forall from :: Room(after, from) == SaturatingSub(Room(g, from), Sent(ms, from)))
  }

  lemma PassStep(g: Gate, before: Gate, front: seq<Message>, m: Message, crypto: Crypto)
    requires Counting(g, before, front, crypto) && Genuine(before, m, crypto)
    ensures var (gate, ok) := Step(before, Reveal(m.from, m.orderBytes, m.signature), crypto);
      && (ok <==> Sent(front, m.from) < Room(g, m.from))
      && Counting(g, gate, front + [m], crypto)
  {
    var (gate, ok) := Step(before, Reveal(m.from, m.orderBytes, m.signature), crypto);
    var ms := front + [m];
    forall from ensures Sent(ms, from) == Sent(front, from) + Sends(from)(m) { TotalSnoc(front, m, Sends(from)); }
    forall h | h in gate.seenReveals
      ensures h in g.seenReveals || exists k :: 0 <= k < |ms| && crypto.sha256(ms[k].orderBytes) == h
    {
      if h in before.seenReveals && h !in g.seenReveals {
        var k :| 0 <= k < |front| && crypto.sha256(front[k].orderBytes) == h;
        assert ms[k] == front[k];
      } else if h !in g.seenReveals {
        assert ms[|front|] == m;
      }
    }
  }

  /** A gate lets through exactly the first messages of every sender, as many as it has room for. */
  lemma {:induction false} PassIsKept(g: Gate, ms: seq<Message>, crypto: Crypto)
    requires AllGenuine(g, ms, crypto)
    ensures Pass(g, ms, crypto).passed == Kept(g, ms) && Counting(g, Pass(g, ms, crypto).gate, ms, crypto)
  {
    if ms != [] {
      var front, m := ms[..|ms| - 1], ms[|ms| - 1];
      assert forall k :: 0 <= k < |front| ==> front[k] == ms[k];
      PassIsKept(g, front, crypto);
      SplitLast(ms);
      PassStep(g, Pass(g, front, crypto).gate, front, m, crypto);
    }
  }

  // ----- when the order does not matter ------------------------------------------------------

  /** Nobody runs into the limit with these messages who was not at it before. */
  ghost predicate WithinLimit(g: Gate, ms: seq<Message>) {
    forall from :: Room(g, from) == 0 || Sent(ms, from) <= Room(g, from)
  }

  lemma {:induction false} KeptWithin(g: Gate, ms: seq<Message>, m: Message)
    requires Room(g, m.from) == 0 || Sent(ms, m.from) <= Room(g, m.from)
    ensures multiset(Kept(g, ms))[m] == if Room(g, m.from) == 0 then 0 else multiset(ms)[m]
  {
    if ms != [] {
      KeptWithin(g, ms[..|ms| - 1], m);
      SplitLast(ms);
    }
  }

  lemma WithinPermuted(g: Gate, a: seq<Message>, b: seq<Message>)
    requires WithinLimit(g, a) && multiset(a) == multiset(b)
    ensures multiset(Kept(g, a)) == multiset(Kept(g, b))
  {
    forall m ensures multiset(Kept(g, a))[m] == multiset(Kept(g, b))[m] {
      assert Room(g, m.from) == 0 || Sent(a, m.from) <= Room(g, m.from);
      TotalPermuted(a, b, Sends(m.from));
      KeptWithin(g, a, m);
      KeptWithin(g, b, m);
    }
  }

  lemma {:induction false} KeptMember(g: Gate, ms: seq<Message>, m: Message)
    ensures m in Kept(g, ms) ==> exists k :: 0 <= k < |ms| && ms[k] == m && Sent(ms[..k], m.from) < Room(g, m.from)
  {
    if m in Kept(g, ms) {
      var front := ms[..|ms| - 1];
      KeptMember(g, front, m);
      if m in Kept(g, front) {
        var k :| 0 <= k < |front| && front[k] == m && Sent(front[..k], m.from) < Room(g, m.from);
        assert ms[k] == m && ms[..k] == front[..k];
      } else {
        assert ms[|ms| - 1] == m;
      }
    }
  }

  /** The last message of a sender has all the others before it. */
  lemma {:induction false} LastSent(ms: seq<Message>, from: Sender) returns (k: nat)
    requires Sent(ms, from) > 0
    ensures k < |ms| && ms[k].from == from && Sent(ms[..k], from) == Sent(ms, from) - 1
  {
    var front := ms[..|ms| - 1];
    if ms[|ms| - 1].from == from {
      k := |ms| - 1;
    } else {
      k := LastSent(front, from);
      assert front[..k] == ms[..k];
    }
  }

  lemma {:induction false} KeptPrefix(g: Gate, first: Message, rest: seq<Message>)
    requires Room(g, first.from) > 0
    ensures first in Kept(g, [first] + rest)
  {
    if rest == [] {
      assert ([first] + rest)[..0] == [];
    } else {
      var front := rest[..|rest| - 1];
      KeptPrefix(g, first, front);
      assert ([first] + rest)[..|[first] + rest| - 1] == [first] + front;
    }
  }

  /** A sender that runs into the limit loses its last message, which in front would have passed. */
  lemma OverrunReorders(g: Gate, ms: seq<Message>, from: Sender) returns (other: seq<Message>)
    requires forall i, j :: 0 <= i < j < |ms| ==> ms[i] != ms[j]
    requires 0 < Room(g, from) < Sent(ms, from)
    ensures multiset(other) == multiset(ms) && multiset(Kept(g, other)) != multiset(Kept(g, ms))
  {
    var k := LastSent(ms, from);
    var m := ms[k];
    other := [m] + (ms[..k] + ms[k + 1..]);
    assert ms == ms[..k] + [m] + ms[k + 1..];
    KeptPrefix(g, m, ms[..k] + ms[k + 1..]);
    assert m in multiset(Kept(g, other));
    KeptMember(g, ms, m);
    assert forall i :: 0 <= i < |ms| && ms[i] == m ==> i == k;
    assert m !in Kept(g, ms);
    assert m !in multiset(Kept(g, ms));
  }

  /** Two gates in the same state let the same reveals through in whatever order they arrive, exactly when no sender runs
      into the limit with them. */
  lemma GatesAgreeExactly(g: Gate, ms: seq<Message>, crypto: Crypto)
    requires AllGenuine(g, ms, crypto)
    ensures (forall other :: multiset(other) == multiset(ms) ==>
               multiset(Pass(g, other, crypto).passed) == multiset(Pass(g, ms, crypto).passed))
       <==> WithinLimit(g, ms)
  {
    PassIsKept(g, ms, crypto);
    if WithinLimit(g, ms) {
      forall other | multiset(other) == multiset(ms)
        ensures multiset(Pass(g, other, crypto).passed) == multiset(Pass(g, ms, crypto).passed)
      {
        GenuinePermuted(g, ms, other, crypto);
        PassIsKept(g, other, crypto);
        WithinPermuted(g, ms, other);
      }
    } else {
      var from :| Room(g, from) != 0 && Sent(ms, from) > Room(g, from);
      var other := OverrunReorders(g, ms, from);
      GenuinePermuted(g, ms, other, crypto);
      PassIsKept(g, other, crypto);
    }
  }

  lemma GenuinePermuted(g: Gate, a: seq<Message>, b: seq<Message>, crypto: Crypto)
    requires AllGenuine(g, a, crypto) && multiset(a) == multiset(b)
    ensures AllGenuine(g, b, crypto)
  {
    forall k | 0 <= k < |b| ensures Genuine(g, b[k], crypto) {
      assert b[k] in multiset(a);
    }
    forall i, j | 0 <= i < j < |b| ensures crypto.sha256(b[i].orderBytes) != crypto.sha256(b[j].orderBytes) {
      assert b[i] in multiset(a) && b[j] in multiset(a);
      if b[i] == b[j] {
        CountedTwice(b, i, j);
        OnceGenuine(g, a, crypto, b[i]);
      }
    }
  }

  lemma {:induction false} OnceGenuine(g: Gate, ms: seq<Message>, crypto: Crypto, m: Message)
    requires AllGenuine(g, ms, crypto)
    ensures multiset(ms)[m] <= 1
  {
    if ms != [] {
      var front, last := ms[..|ms| - 1], ms[|ms| - 1];
      assert forall k :: 0 <= k < |front| ==> front[k] == ms[k];
      OnceGenuine(g, front, crypto, m);
      SplitLast(ms);
      if last == m { assert m !in front; }
    }
  }

  // ----- and the matches ----------------------------------------------------------------------

  function Entries(ms: seq<Message>): seq<O.Sealed> {
    seq(|ms|, k requires 0 <= k < |ms| => O.Sealed(ms[k].orderBytes, ms[k].signature))
  }

  lemma EntriesWithout(ms: seq<Message>, i: nat)
    requires i < |ms|
    ensures var rest := ms[..i] + ms[i + 1..];
      && multiset(ms) == multiset(rest) + multiset{ms[i]}
      && multiset(Entries(ms)) == multiset(Entries(rest)) + multiset{O.Sealed(ms[i].orderBytes, ms[i].signature)}
  {
    var es := Entries(ms);
    SplitAt(ms, i);
    SplitAt(es, i);
    assert Entries(ms[..i] + ms[i + 1..]) == es[..i] + es[i + 1..];
  }

  lemma {:induction false} EntriesPermuted(a: seq<Message>, b: seq<Message>)
    requires multiset(a) == multiset(b)
    ensures multiset(Entries(a)) == multiset(Entries(b))
    decreases |a|
  {
    if a == [] {
      assert |multiset(b)| == 0;
    } else {
      assert a[0] in multiset(b);
      var i :| 0 <= i < |b| && b[i] == a[0];
      EntriesWithout(a, 0);
      EntriesWithout(b, i);
      O.SameRest(multiset(a[..0] + a[1..]), multiset(b[..i] + b[i + 1..]), a[0]);
      EntriesPermuted(a[..0] + a[1..], b[..i] + b[i + 1..]);
    }
  }

  /** Within the limit, a node computes the same matches in whatever order its gate receives the reveals. */
  lemma ArrivalDecidesNothing(
    g: Gate, a: seq<Message>, b: seq<Message>, crypto: Crypto,
    batchId: nat, poolId: U64, markets: seq<MarketConfig>, codec: O.Codec, own: seq<O.Sealed>)
    requires AllGenuine(g, a, crypto) && WithinLimit(g, a) && multiset(a) == multiset(b)
    requires RunMatching.DistinctSymbols(markets)
    requires RunMatching.HashesIdentify(O.Decoded(codec, own + Entries(Pass(g, a, crypto).passed)))
    ensures O.NodeMatches(batchId, poolId, markets, codec, own, Entries(Pass(g, a, crypto).passed))
         == O.NodeMatches(batchId, poolId, markets, codec, own, Entries(Pass(g, b, crypto).passed))
  {
    GatesAgreeExactly(g, a, crypto);
    assert multiset(Pass(g, b, crypto).passed) == multiset(Pass(g, a, crypto).passed);
    EntriesPermuted(Pass(g, a, crypto).passed, Pass(g, b, crypto).passed);
    O.NodeAgreement(batchId, poolId, markets, markets, codec,
                    own, Entries(Pass(g, a, crypto).passed), own, Entries(Pass(g, b, crypto).passed));
  }
}
