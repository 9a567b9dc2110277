/** iotx_mc_send_packet: one packet handed to the network in as many writes as it takes. Every write is
    offered the length of the whole packet, not of what is left, so a network that takes part of a packet
    and then all that it is offered gets bytes from behind it. */
module MqttSend {
  import opened Bytes

  // Whether the packet counts as sent, and what went out.
  datatype Sending = Sending(ok: bool, wire: seq<byte>)

  // A packet and what lies behind it in memory.
  datatype Memory = Memory(packet: seq<byte>, behind: nat -> byte)

  function From(m: Memory, i: nat): (b: byte) { if i < |m.packet| then m.packet[i] else m.behind(i - |m.packet|) }

  function Slice(m: Memory, i: nat, n: nat): (w: seq<byte>)
    ensures |w| == n
  {
    seq<byte>(n, k requires 0 <= k < n => From(m, i + k))
  }

  function Behind(m: Memory, n: nat): seq<byte> { seq<byte>(n, k requires 0 <= k < n => m.behind(k)) }

  // A write takes no more than it is offered; below 0 it fails.
  function Taken(answer: int, offered: nat): int { if answer > offered then offered else answer }

  // The writes from byte sent on; the timer runs out when the answers do.
  function SendFrom(m: Memory, sent: nat, answers: seq<int>): Sending
    decreases |answers|
  {
    var n := |m.packet|;
    if sent >= n || answers == [] || answers[0] < 0 then Sending(sent == n, [])
    else
      var count := Taken(answers[0], n);
      var rest := SendFrom(m, sent + count, answers[1..]);
      Sending(rest.ok, Slice(m, sent, count) + rest.wire)
  }

  function Sent(m: Memory, answers: seq<int>): Sending { SendFrom(m, 0, answers) }

  lemma SendUnfold(m: Memory, sent: nat, answers: seq<int>)
    ensures var n := |m.packet|;
      SendFrom(m, sent, answers) ==
        if sent >= n || answers == [] || answers[0] < 0 then Sending(sent == n, [])
        else
          var rest := SendFrom(m, sent + Taken(answers[0], n), answers[1..]);
          Sending(rest.ok, Slice(m, sent, Taken(answers[0], n)) + rest.wire)
  {}

  lemma SliceJoins(m: Memory, i: nat, a: nat, b: nat)
    ensures Slice(m, i, a) + Slice(m, i + a, b) == Slice(m, i, a + b)
  {}

  lemma SliceNothing(m: Memory, i: nat)
    ensures Slice(m, i, 0) == []
  {}

  lemma SliceIsPacket(m: Memory)
    ensures Slice(m, 0, |m.packet|) == m.packet
  {
    var w := Slice(m, 0, |m.packet|);
    assert forall k :: 0 <= k < |w| ==> w[k] == m.packet[k];
  }

  // What goes out is a contiguous piece of memory, less than a packet long beyond the packet's last byte.
  lemma {:induction false} WireIsSlice(m: Memory, sent: nat, answers: seq<int>)
    requires sent < 2 * |m.packet| || sent == 0
    ensures var s := SendFrom(m, sent, answers);
      && s.wire == Slice(m, sent, |s.wire|) && (s.ok <==> sent + |s.wire| == |m.packet|)
      && (if m.packet == [] then s.wire == [] else sent + |s.wire| < 2 * |m.packet|)
    decreases |answers|
  {
    hide SendFrom, Slice;
    var n := |m.packet|;
    SendUnfold(m, sent, answers);
    if sent >= n || answers == [] || answers[0] < 0 {
      SliceNothing(m, sent);
    } else {
      var count := Taken(answers[0], n);
      WireIsSlice(m, sent + count, answers[1..]);
      SliceJoins(m, sent, count, |SendFrom(m, sent + count, answers[1..]).wire|);
    }
  }

  // The packet went out exactly if the sending succeeds, however many writes that took; otherwise a
  // beginning of it, or all of it and some of what lies behind.
  predicate Proper(s: Sending, packet: seq<byte>) {
    && (s.ok <==> s.wire == packet)
    && (s.wire <= packet || (packet <= s.wire && |s.wire| < 2 * |packet|))
  }

  lemma SendProper(m: Memory, answers: seq<int>)
    ensures Proper(Sent(m, answers), m.packet)
    ensures Sent(m, answers).wire == Slice(m, 0, |Sent(m, answers).wire|)
  {
    hide SendFrom, Slice;
    WireIsSlice(m, 0, answers);
    SliceIsPacket(m);
    var n := |Sent(m, answers).wire|;
    if n <= |m.packet| {
      SliceJoins(m, 0, n, |m.packet| - n);
    } else {
      SliceJoins(m, 0, |m.packet|, n - |m.packet|);
    }
  }

  // ---------- by the counts ----------

  function Total(answers: seq<int>, offered: nat): int {
    if answers == [] then 0 else Taken(answers[0], offered) + Total(answers[1..], offered)
  }

  predicate NoneFails(answers: seq<int>) { forall k :: 0 <= k < |answers| ==> answers[k] >= 0 }

  // Do the first k writes succeed and take exactly that many bytes?
  predicate TakeExactly(answers: seq<int>, k: nat, offered: nat, bytes: int)
    requires k <= |answers|
  {
    NoneFails(answers[..k]) && Total(answers[..k], offered) == bytes
  }

  lemma NoneFailsFirst(a: int, rest: seq<int>)
    ensures NoneFails([a] + rest) <==> a >= 0 && NoneFails(rest)
  {
    forall k | 0 <= k < |rest| ensures ([a] + rest)[k + 1] == rest[k] {}
    if NoneFails([a] + rest) {
      assert ([a] + rest)[0] == a;
      forall k | 0 <= k < |rest| ensures rest[k] >= 0 { assert ([a] + rest)[k + 1] >= 0; }
    }
  }

  lemma TakeFirst(answers: seq<int>, k: nat, offered: nat, bytes: int)
    requires 0 < k <= |answers|
    ensures TakeExactly(answers, k, offered, bytes) <==>
      answers[0] >= 0 && TakeExactly(answers[1..], k - 1, offered, bytes - Taken(answers[0], offered))
  {
    assert answers[..k] == [answers[0]] + answers[1..][..k - 1];
    NoneFailsFirst(answers[0], answers[1..][..k - 1]);
  }

  lemma {:induction false} TotalGrows(answers: seq<int>, offered: nat)
    requires NoneFails(answers)
    ensures Total(answers, offered) >= 0
  {
    if answers != [] {
      assert forall k :: 0 <= k < |answers[1..]| ==> answers[1..][k] == answers[k + 1];
      TotalGrows(answers[1..], offered);
    }
  }

  predicate CountsReach(answers: seq<int>, offered: nat, bytes: int) {
    exists k :: 0 <= k <= |answers| && TakeExactly(answers, k, offered, bytes)
  }

  // Once something is left, the first write must succeed, and the others take the rest.
  lemma ReachFirst(answers: seq<int>, offered: nat, bytes: int)
    requires bytes != 0
    ensures CountsReach(answers, offered, bytes) <==>
      bytes > 0 && answers != [] && answers[0] >= 0 && CountsReach(answers[1..], offered, bytes - Taken(answers[0], offered))
  {
    if CountsReach(answers, offered, bytes) {
      var k :| 0 <= k <= |answers| && TakeExactly(answers, k, offered, bytes);
      TotalGrows(answers[..k], offered);
      TakeFirst(answers, k, offered, bytes);
    }
    if answers != [] && answers[0] >= 0 && bytes > 0 && CountsReach(answers[1..], offered, bytes - Taken(answers[0], offered)) {
      var k :| 0 <= k <= |answers[1..]| && TakeExactly(answers[1..], k, offered, bytes - Taken(answers[0], offered));
      TakeFirst(answers, k + 1, offered, bytes);
    }
  }

  // Sending succeeds from sent on exactly if the counts of some first writes add up to what is left.
  lemma {:induction false} OkByCounts(m: Memory, sent: nat, answers: seq<int>)
    ensures SendFrom(m, sent, answers).ok <==> CountsReach(answers, |m.packet|, |m.packet| - sent)
    decreases |answers|
  {
    hide SendFrom, Slice, CountsReach;
    var n := |m.packet|;
    SendUnfold(m, sent, answers);
    if sent == n {
      NothingLeft(answers, n);
    } else {
      ReachFirst(answers, n, n - sent);
      if sent < n && answers != [] && answers[0] >= 0 { OkByCounts(m, sent + Taken(answers[0], n), answers[1..]); }
    }
  }

  lemma NothingLeft(answers: seq<int>, offered: nat)
    ensures CountsReach(answers, offered, 0)
  {
    assert TakeExactly(answers, 0, offered, 0);
  }

  lemma BehindPacket(m: Memory, n: nat)
    ensures Slice(m, 0, |m.packet| + n) == m.packet + Behind(m, n)
  {
    SliceJoins(m, 0, |m.packet|, n);
    SliceIsPacket(m);
    assert forall k :: 0 <= k < n ==> Slice(m, |m.packet|, n)[k] == Behind(m, n)[k];
  }

  // A network that takes a part and then all that is offered: the sending fails, and as many bytes from
  // behind the packet go out as the first write took.
  lemma PartThenAll(m: Memory, first: nat, answers: seq<int>)
    requires 0 < first < |m.packet| && |answers| >= 2 && answers[0] == first && answers[1] >= |m.packet|
    ensures Sent(m, answers) == Sending(false, m.packet + Behind(m, first))
  {
    var n := |m.packet|;
    SendUnfold(m, 0, answers);
    SendUnfold(m, first, answers[1..]);
    SendUnfold(m, first + n, answers[1..][1..]);
    hide SendFrom;
    SliceJoins(m, 0, first, n);
    assert Slice(m, first, n) + [] == Slice(m, first, n);
    BehindPacket(m, first);
  }

  // ---------- the loop ----------

  // iotx_mc_send_packet; answers are the results of the writes that the timer leaves time for.
  method SendPacket(m: Memory, answers: seq<int>) returns (s: Sending)
    ensures s == Sent(m, answers)
  {
    hide SendFrom, Slice;
    var sent, length, i: nat := 0, |m.packet|, 0;
    var wire: seq<byte> := [];
    assert answers[0..] == answers;
    while sent < length && i < |answers|
      invariant i <= |answers|
      invariant Sent(m, answers).ok == SendFrom(m, sent, answers[i..]).ok
      invariant Sent(m, answers).wire == wire + SendFrom(m, sent, answers[i..]).wire
      decreases |answers| - i
    {
      SendUnfold(m, sent, answers[i..]);
      var rc := Taken(answers[i], length);
      if rc < 0 { break; }
      assert answers[i..][1..] == answers[i + 1..];
      Regroup(wire, Slice(m, sent, rc), SendFrom(m, sent + rc, answers[i + 1..]).wire);
      wire := wire + Slice(m, sent, rc);
      sent, i := sent + rc, i + 1;
    }
    SendUnfold(m, sent, answers[i..]);
    assert wire + [] == wire;
    s := Sending(sent == length, wire);
  }
}
