/** Words over a byte stream: `send_word` and `receive_word` of cli.hpp. Either end may move any number
    of bytes at a time and be interrupted any number of times. */
module Framing {
  import opened Machine
  import opened Decimal

  const WIDTH: nat := 8

  function Pow256(k: nat): nat { if k == 0 then 1 else 256 * Pow256(k - 1) }

  /** The bytes of a number, lowest first. */
  function Encode(v: nat, n: nat): (s: seq<byte>)
    ensures |s| == n
  {
    if n == 0 then [] else [v % 256] + Encode(v / 256, n - 1)
  }

  function Decode(s: seq<byte>): nat {
    if s == [] then 0 else s[0] + 256 * Decode(s[1..])
  }

  lemma {:induction false} DecodeEncode(v: nat, n: nat)
    requires v < Pow256(n)
    ensures Decode(Encode(v, n)) == v
  {
    if n > 0 {
      DecodeEncode(v / 256, n - 1);
      assert Encode(v, n)[1..] == Encode(v / 256, n - 1);
    }
  }

  lemma {:induction false} EncodeDecode(s: seq<byte>)
    ensures Decode(s) < Pow256(|s|) && Encode(Decode(s), |s|) == s
  {
    if s != [] {
      EncodeDecode(s[1..]);
      assert s == [s[0]] + s[1..];
    }
  }

  lemma WordFits()
    ensures Pow256(WIDTH) == WORD
  {
    assert Pow256(4) == 0x1_0000_0000;
    assert Pow256(6) == 256 * (256 * Pow256(4));
    assert Pow256(8) == 256 * (256 * Pow256(6));
  }

  function WordBytes(w: word): seq<byte> { Encode(w, WIDTH) }

  /** The bytes of several words, in order. */
  function Flatten(ws: seq<word>): (s: seq<byte>)
    ensures |s| == WIDTH * |ws|
  {
    if ws == [] then [] else Flatten(ws[..|ws| - 1]) + WordBytes(ws[|ws| - 1])
  }

  /** The sending end: what the socket has accepted so far. `interruptions` bounds how often calls are
      still going to be interrupted; `failures` counts the calls that failed. */
  class Outbox {
    var accepted: seq<byte>
    var interruptions: nat
    var failures: nat

    constructor (interruptions: nat)
      ensures accepted == [] && failures == 0
    {
      accepted, failures := [], 0;
      this.interruptions := interruptions;
    }

    /** send: accepts a nonempty prefix, or is interrupted (n < 0 and EINTR), or fails. */
    method Send(data: seq<byte>) returns (n: int, interrupted: bool)
      requires data != []
      modifies this
      ensures n <= |data| && accepted == if n > 0 then old(accepted) + data[..n] else old(accepted)
      ensures interrupted ==> n < 0 && interruptions < old(interruptions)
      ensures !interrupted ==> interruptions == old(interruptions)
      ensures failures == old(failures) + if n <= 0 && !interrupted then 1 else 0
    {
      n :| n <= |data|;
      interrupted := *;
      interrupted := interrupted && n < 0 && interruptions > 0;
      if interrupted {
        interruptions := interruptions - 1;
      } else if n <= 0 {
        failures := failures + 1;
      }
      if n > 0 {
        accepted := accepted + data[..n];
      }
    }

    /** `send_word`: neither an interruption nor a partial transfer makes it give up. */
    method SendWord(value: word) returns (ok: bool)
      modifies this
      ensures failures == old(failures) + if ok then 0 else 1
      ensures ok ==> accepted == old(accepted) + WordBytes(value)
      ensures !ok ==> exists k: nat :: k < WIDTH && accepted == old(accepted) + WordBytes(value)[..k]
    {
      var bytes := WordBytes(value);
      var sent := 0;
      assert old(accepted) + bytes[..0] == old(accepted);
      while sent < WIDTH
        invariant sent <= WIDTH
        invariant accepted == old(accepted) + bytes[..sent] && failures == old(failures)
        decreases WIDTH - sent, interruptions
      {
        var n, interrupted := Send(bytes[sent..]);
        if interrupted {
          continue;
        }
        if n <= 0 {
          return false;
        }
        assert bytes[..sent] + bytes[sent..][..n] == bytes[..sent + n];
        sent := sent + n;
      }
      assert bytes[..sent] == bytes;
      ok := true;
    }
  }

  /** The receiving end: the bytes that will ever arrive, and how many have been taken. */
  class Inbox {
    const stream: seq<byte>
    var taken: nat
    var interruptions: nat
    var failures: nat

    ghost predicate Valid()
      reads this
    {
      taken <= |stream|
    }

    constructor (stream: seq<byte>, interruptions: nat)
      ensures Valid() && this.stream == stream && taken == 0 && failures == 0
    {
      this.stream := stream;
      taken, failures := 0, 0;
      this.interruptions := interruptions;
    }

    /** recv into `buffer` from index `at`: takes what has arrived, never more than there is room for;
        0 at the end of the stream; negative on a timeout, an error or an interruption. */
    method Receive(buffer: array<byte>, at: nat) returns (n: int, interrupted: bool)
      requires Valid() && at < buffer.Length
      modifies this, buffer
      ensures Valid() && n <= buffer.Length - at
      ensures taken == old(taken) + (if n > 0 then n else 0)
      ensures forall k :: 0 <= k < at ==> buffer[k] == old(buffer[k])
      ensures forall k :: at <= k < at + n ==> buffer[k] == stream[old(taken) + (k - at)]
      ensures interrupted ==> n < 0 && interruptions < old(interruptions)
      ensures !interrupted ==> interruptions == old(interruptions)
      ensures failures == old(failures) + if n <= 0 && !interrupted then 1 else 0
    {
      n :| n <= buffer.Length - at && n <= |stream| - taken;
      interrupted := *;
      interrupted := interrupted && n < 0 && interruptions > 0;
      if interrupted {
        interruptions := interruptions - 1;
      } else if n <= 0 {
        failures := failures + 1;
      }
      if n > 0 {
        for j := 0 to n
          modifies buffer
          invariant forall k :: 0 <= k < at ==> buffer[k] == old(buffer[k])
          invariant forall k :: at <= k < at + j ==> buffer[k] == stream[taken + (k - at)]
        {
          buffer[at + j] := stream[taken + j];
        }
        taken := taken + n;
      }
    }

    /** `receive_word`: a word exactly if all its bytes come before the stream ends or a call fails. */
    method ReceiveWord() returns (value: Option<word>)
      requires Valid()
      modifies this
      ensures Valid()
      ensures failures == old(failures) + if value.Some? then 0 else 1
      ensures value.Some? ==>
        && taken == old(taken) + WIDTH
        && WordBytes(value.value) == stream[old(taken)..taken]
      ensures value.None? ==> old(taken) <= taken < old(taken) + WIDTH
    {
      var buffer := new byte[WIDTH];
      var received := 0;
      while received < WIDTH
        invariant Valid() && received <= WIDTH && taken == old(taken) + received && failures == old(failures)
        invariant fresh(buffer)
        invariant forall k :: 0 <= k < received ==> buffer[k] == stream[old(taken) + k]
        decreases WIDTH - received, interruptions
      {
        var n, interrupted := Receive(buffer, received);
        if interrupted {
          continue;
        }
        if n <= 0 {
          return None;
        }
        received := received + n;
      }
      EncodeDecode(buffer[..]);
      WordFits();
      assert buffer[..] == stream[old(taken)..taken];
      value := Some(Decode(buffer[..]));
    }
  }

  /** A sender that gets through the words one by one until one fails. */
  method SendAll(outbox: Outbox, ws: seq<word>) returns (sent: nat)
    modifies outbox
    ensures sent <= |ws| && outbox.failures == old(outbox.failures) + if sent < |ws| then 1 else 0
    ensures sent == |ws| ==> outbox.accepted == old(outbox.accepted) + Flatten(ws)
    ensures sent < |ws| ==> exists k: nat ::
      k < WIDTH && outbox.accepted == old(outbox.accepted) + Flatten(ws[..sent]) + WordBytes(ws[sent])[..k]
  {
    sent := 0;
    while sent < |ws|
      invariant sent <= |ws| && outbox.accepted == old(outbox.accepted) + Flatten(ws[..sent])
      invariant outbox.failures == old(outbox.failures)
    {
      var ok := outbox.SendWord(ws[sent]);
      if !ok {
        return;
      }
      assert ws[..sent + 1][..sent] == ws[..sent];
      sent := sent + 1;
    }
    assert ws[..sent] == ws;
  }

  /** A receiver that takes words until one does not come. */
  method ReceiveAll(inbox: Inbox, most: nat) returns (rs: seq<word>)
    requires inbox.Valid() && inbox.taken == 0
    modifies inbox
    ensures inbox.Valid() && |rs| <= most && Flatten(rs) <= inbox.stream
    ensures inbox.failures == old(inbox.failures) + if |rs| < most then 1 else 0
  {
    rs := [];
    while |rs| < most
      invariant inbox.Valid() && |rs| <= most && inbox.taken == |Flatten(rs)|
      invariant inbox.failures == old(inbox.failures)
      invariant Flatten(rs) == inbox.stream[..inbox.taken]
      decreases most - |rs|
    {
      ghost var before := inbox.taken;
      var w := inbox.ReceiveWord();
      if w.None? {
        return;
      }
      assert (rs + [w.value])[..|rs|] == rs;
      assert inbox.stream[..before] + inbox.stream[before..inbox.taken] == inbox.stream[..inbox.taken];
      rs := rs + [w.value];
    }
  }

  lemma {:induction false} FlattenInjective(rs: seq<word>, ws: seq<word>)
    requires |rs| == |ws| && Flatten(rs) == Flatten(ws)
    ensures rs == ws
    decreases |rs|
  {
    if rs != [] {
      var n := |rs| - 1;
      assert Flatten(rs)[..WIDTH * n] == Flatten(rs[..n]) && Flatten(ws)[..WIDTH * n] == Flatten(ws[..n]);
      assert Flatten(rs)[WIDTH * n..] == WordBytes(rs[n]) && Flatten(ws)[WIDTH * n..] == WordBytes(ws[n]);
      FlattenInjective(rs[..n], ws[..n]);
      WordFits();
      DecodeEncode(rs[n], WIDTH);
      DecodeEncode(ws[n], WIDTH);
      assert rs == rs[..n] + [rs[n]] && ws == ws[..n] + [ws[n]];
    }
  }

  lemma {:induction false} FlattenPrefix(ws: seq<word>, n: nat)
    requires n <= |ws|
    ensures Flatten(ws[..n]) <= Flatten(ws)
    decreases |ws|
  {
    if n < |ws| {
      var last := |ws| - 1;
      FlattenPrefix(ws[..last], n);
      assert ws[..last][..n] == ws[..n];
    } else {
      assert ws[..n] == ws;
    }
  }

  /** However the stream was cut on either side, and wherever it ended, the words received are a prefix
      of the words sent: a word that was only partly sent is not delivered, and no word is made up. */
  lemma ReceivedArePrefix(ws: seq<word>, partial: seq<byte>, stream: seq<byte>, rs: seq<word>)
    requires |partial| < WIDTH && stream <= Flatten(ws) + partial
    requires Flatten(rs) <= stream
    ensures rs <= ws
  {
    var all, n := Flatten(ws) + partial, |rs|;
    assert WIDTH * n <= |stream| <= WIDTH * |ws| + |partial|;
    assert n <= |ws|;
    FlattenPrefix(ws, n);
    assert Flatten(rs) == all[..WIDTH * n] == Flatten(ws)[..WIDTH * n] == Flatten(ws[..n]);
    FlattenInjective(rs, ws[..n]);
  }

  /** One connection, end to end: the sender goes through its words until a send fails, some of the bytes
      accepted arrive, the receiver takes words until one does not come. It gets a prefix of the words, of
      the length it asks for unless one of its calls fails or finds the stream at its end. */
  method Connection(ws: seq<word>, most: nat, interruptionsOut: nat, interruptionsIn: nat)
      returns (rs: seq<word>, failed: bool)
    ensures rs <= ws && |rs| <= most
    ensures failed <==> |rs| < most
  {
    var outbox := new Outbox(interruptionsOut);
    var sent := SendAll(outbox, ws);
    var arrived: nat :| arrived <= |outbox.accepted|;
    var inbox := new Inbox(outbox.accepted[..arrived], interruptionsIn);
    rs := ReceiveAll(inbox, most);
    failed := inbox.failures > 0;
    if sent == |ws| {
      assert outbox.accepted == Flatten(ws) + [];
      ReceivedArePrefix(ws, [], inbox.stream, rs);
    } else {
      var k: nat :| k < WIDTH && outbox.accepted == [] + Flatten(ws[..sent]) + WordBytes(ws[sent])[..k];
      assert outbox.accepted == Flatten(ws[..sent]) + WordBytes(ws[sent])[..k];
      ReceivedArePrefix(ws[..sent], WordBytes(ws[sent])[..k], inbox.stream, rs);
    }
  }
}
