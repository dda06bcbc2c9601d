/** The sending side of `tcp-large-transfer.cc`: a byte stream written in pieces whenever the socket
    has room, over every behaviour of the socket. */
module LargeTransfer {

  const TOTAL_TX_BYTES: nat := 2000000
  const WRITE_SIZE: nat := 1040

  /** What the socket does in one turn of the loop: the room it reports, and a failed send (negative)
      or the number of bytes it takes. */
  datatype Answer = Answer(available: nat, amount: int)

  /** The byte at position `i` of the stream a..z, a..z, ... */
  function Letter(i: nat): nat { 97 + i % 26 }

  /** The letters of the alphabet in turn. */
  lemma LetterIs(i: nat)
    ensures Letter(i) == "abcdefghijklmnopqrstuvwxyz"[i % 26] as nat
  {
  }

  function Stream(n: nat): (s: seq<nat>)
    ensures |s| == n && forall i :: 0 <= i < n ==> s[i] == Letter(i)
  {
    seq(n, i requires 0 <= i < n => Letter(i))
  }

  function Min(a: nat, b: nat): nat { if a < b then a else b }

  /** How much the socket takes of the piece it is offered when `current` bytes are through. */
  function Piece(current: nat, a: Answer): (n: nat)
    requires current < TOTAL_TX_BYTES && a.available > 0
    ensures 0 < n <= TOTAL_TX_BYTES - current
  {
    var offered := Min(Min(WRITE_SIZE - current % WRITE_SIZE, TOTAL_TX_BYTES - current), a.available);
    if a.amount <= 0 then 1 else if a.amount > offered then offered else a.amount
  }

  /** The piece is as long as the socket takes, at least one byte, unless its room, the rest of the buffer
      or the rest of the transfer is shorter. */
  lemma PieceIsLongest(current: nat, a: Answer)
    requires current < 2000000 && a.available > 0
    ensures var n, wanted := Piece(current, a), if a.amount <= 0 then 1 else a.amount;
            && n <= wanted && n <= a.available && n <= 1040 - current % 1040 && n <= 2000000 - current
            && (n == wanted || n == a.available || n == 1040 - current % 1040 || n == 2000000 - current)
  {
  }

  /** How many bytes are through after the socket gave the answers of one callback. */
  function Advance(current: nat, answers: seq<Answer>): (n: nat)
    requires current <= TOTAL_TX_BYTES
    ensures n <= TOTAL_TX_BYTES
    decreases |answers|
  {
    if current == TOTAL_TX_BYTES || answers == [] || answers[0].available == 0 || answers[0].amount < 0 then current
    else Advance(current + Piece(current, answers[0]), answers[1..])
  }

  /** The bytes through before each answer that is used: every one but the last is used up by a successful
      send, and the callback ends when all is sent, there is no room, the send fails, or no answer is left. */
  ghost predicate Progress(answers: seq<Answer>, through: seq<nat>)
  {
    && 0 < |through| <= |answers| + 1
    && (forall k :: 0 <= k < |through| ==> through[k] <= 2000000)
    && (forall k: nat :: k < |through| - 1 ==> Sends(through[k], answers[k], through[k + 1]))
    && var k := |through| - 1;
       through[k] == 2000000 || k == |answers| || answers[k].available == 0 || answers[k].amount < 0
  }

  ghost predicate Sends(current: nat, a: Answer, next: nat)
  {
    current < 2000000 && a.available > 0 && a.amount >= 0 && next == current + Piece(current, a)
  }

  /** A callback writes piece after piece until it has to end. */
  lemma {:induction false} AdvanceProgresses(current: nat, answers: seq<Answer>) returns (through: seq<nat>)
    requires current <= TOTAL_TX_BYTES
    ensures Progress(answers, through)
    ensures through[0] == current && through[|through| - 1] == Advance(current, answers)
    decreases |answers|
  {
    through := [current];
    if current < TOTAL_TX_BYTES && answers != [] && answers[0].available > 0 && answers[0].amount >= 0 {
      var rest := AdvanceProgresses(current + Piece(current, answers[0]), answers[1..]);
      through := through + rest;
      assert Sends(current, answers[0], rest[0]);
      hide Advance, Piece;
      ProgressLonger(current, answers, rest);
    }
  }

  lemma ProgressLonger(current: nat, answers: seq<Answer>, rest: seq<nat>)
    requires answers != [] && Progress(answers[1..], rest) && Sends(current, answers[0], rest[0])
    ensures Progress(answers, [current] + rest)
  {
    hide Piece;
    var through := [current] + rest;
    forall k: nat | k < |through| - 1 ensures Sends(through[k], answers[k], through[k + 1]) {
      if k > 0 { assert Sends(rest[k - 1], answers[1..][k - 1], rest[k]); }
    }
  }

  function AdvanceAll(current: nat, callbacks: seq<seq<Answer>>): (n: nat)
    requires current <= TOTAL_TX_BYTES
    ensures n <= TOTAL_TX_BYTES
  {
    if callbacks == [] then current
    else Advance(AdvanceAll(current, callbacks[..|callbacks| - 1]), callbacks[|callbacks| - 1])
  }

  /** How many callbacks end with everything accepted. */
  function Completions(callbacks: seq<seq<Answer>>): nat
  {
    if callbacks == [] then 0
    else
      Completions(callbacks[..|callbacks| - 1]) + (if AdvanceAll(0, callbacks) == TOTAL_TX_BYTES then 1 else 0)
  }

  /** A write size that is a multiple of 26 makes the buffer wrap where the alphabet does. */
  lemma LetterWraps(current: nat, j: nat)
    ensures Letter(current % WRITE_SIZE + j) == Letter(current + j)
  {
    var q, o := current / WRITE_SIZE, current % WRITE_SIZE;
    assert current + j == (o + j) + 26 * (40 * q);
  }

  class Sender {
    const data: array<nat>
    var currentTxBytes: nat
    /** The bytes the socket has accepted, and how often it was closed. */
    var sent: seq<nat>
    var closes: nat

    ghost predicate Valid()
      reads this, data
    {
      && data.Length == WRITE_SIZE
      && (forall i :: 0 <= i < WRITE_SIZE ==> data[i] == Letter(i))
      && currentTxBytes <= TOTAL_TX_BYTES
      && sent == Stream(currentTxBytes)
      && (closes > 0 ==> currentTxBytes == TOTAL_TX_BYTES)
    }

    constructor ()
      ensures Valid() && fresh(data) && currentTxBytes == 0 && closes == 0
    {
      var buffer := new nat[WRITE_SIZE];
      for i := 0 to WRITE_SIZE
        invariant forall k :: 0 <= k < i ==> buffer[k] == Letter(k)
      {
        buffer[i] := (97 + i % 26) % 128;
      }
      data := buffer;
      currentTxBytes, sent, closes := 0, [], 0;
    }

    /** The socket takes a non-empty prefix of what it is offered, or fails. */
    method Send(offset: nat, length: nat, amount: int) returns (amountSent: int)
      requires Valid() && 0 < length && offset + length <= WRITE_SIZE
      modifies this`sent
      ensures amountSent < 0 ==> amount < 0 && sent == old(sent)
      ensures amountSent >= 0 ==> amount >= 0 && 0 < amountSent <= length
                                  && amountSent == (if amount == 0 then 1 else if amount > length then length else amount)
                                  && sent == old(sent) + data[offset..offset + amountSent]
    {
      if amount < 0 {
        return -1;
      }
      amountSent := if amount == 0 then 1 else if amount > length then length else amount;
      sent := sent + data[offset..offset + amountSent];
    }

    /** One turn of the loop; `ok` is false when the send failed. */
    method WriteOnce(answer: Answer) returns (ok: bool)
      requires Valid() && currentTxBytes < TOTAL_TX_BYTES && answer.available > 0 && closes == 0
      modifies this`sent, this`currentTxBytes
      ensures Valid()
      ensures ok <==> answer.amount >= 0
      ensures ok ==> currentTxBytes == old(currentTxBytes) + Piece(old(currentTxBytes), answer)
      ensures !ok ==> currentTxBytes == old(currentTxBytes)
    {
      var left := TOTAL_TX_BYTES - currentTxBytes;
      var dataOffset := currentTxBytes % WRITE_SIZE;
      var toWrite := WRITE_SIZE - dataOffset;
      toWrite := Min(toWrite, left);
      toWrite := Min(toWrite, answer.available);
      var amountSent := Send(dataOffset, toWrite, answer.amount);
      if amountSent < 0 {
        return false;
      }
      Continues(dataOffset, amountSent, old(sent));
      currentTxBytes := currentTxBytes + amountSent;
      ok := true;
    }

    /** Bytes taken from the buffer at the current offset continue the stream. */
    lemma Continues(offset: nat, n: nat, before: seq<nat>)
      requires data.Length == WRITE_SIZE && forall i :: 0 <= i < WRITE_SIZE ==> data[i] == Letter(i)
      requires offset == currentTxBytes % WRITE_SIZE && offset + n <= WRITE_SIZE
      requires before == Stream(currentTxBytes)
      ensures before + data[offset..offset + n] == Stream(currentTxBytes + n)
    {
      var all := before + data[offset..offset + n];
      forall i | 0 <= i < |all| ensures all[i] == Letter(i) {
        if i >= currentTxBytes {
          LetterWraps(currentTxBytes, i - currentTxBytes);
        }
      }
    }

    /** The callback: writes while there is something left, room and no failure, and closes the socket
        once everything is accepted. The answers are the socket's behaviour during this call; when
        they are used up the socket reports no room. */
    method WriteUntilBufferFull(answers: seq<Answer>)
      requires Valid()
      modifies this
      ensures Valid()
      ensures currentTxBytes == Advance(old(currentTxBytes), answers)
      ensures old(currentTxBytes) <= currentTxBytes && old(sent) <= sent
      ensures closes == old(closes) + if currentTxBytes == TOTAL_TX_BYTES then 1 else 0
      ensures |answers| >= TOTAL_TX_BYTES - old(currentTxBytes)
              && (forall k :: 0 <= k < |answers| ==> answers[k].available > 0 && answers[k].amount >= 0)
              ==> closes == old(closes) + 1
    {
      var i := 0;
      while currentTxBytes < TOTAL_TX_BYTES && i < |answers| && answers[i].available > 0
        invariant 0 <= i <= |answers| && Valid() && closes == old(closes)
        invariant old(currentTxBytes) + i <= currentTxBytes
        invariant Advance(old(currentTxBytes), answers) == Advance(currentTxBytes, answers[i..])
      {
        assert answers[i..][1..] == answers[i + 1..];
        var ok := WriteOnce(answers[i]);
        if !ok {
          return;
        }
        i := i + 1;
      }
      if currentTxBytes >= TOTAL_TX_BYTES {
        closes := closes + 1;
      }
    }
  }

  /** A whole run: the flow is started, then the socket calls back any number of times. Whatever the
      socket does, the accepted bytes are a prefix of the repeating alphabet, never more than the
      total, and the socket is closed once for every callback that ends with all of them accepted. */
  method RunFlow(start: seq<Answer>, callbacks: seq<seq<Answer>>) returns (sent: seq<nat>, closes: nat)
    ensures sent == Stream(AdvanceAll(0, [start] + callbacks)) && |sent| <= 2000000
    ensures forall i :: 0 <= i < |sent| ==> sent[i] == "abcdefghijklmnopqrstuvwxyz"[i % 26] as nat
    ensures closes == Completions([start] + callbacks)
    ensures closes > 0 <==> |sent| == TOTAL_TX_BYTES
  {
    hide Advance, AdvanceAll, Completions;
    ghost var all := [start] + callbacks;
    var sender := new Sender();
    PrefixNext(all, 0);
    sender.WriteUntilBufferFull(start);
    for i := 0 to |callbacks|
      invariant fresh(sender) && sender.Valid()
      invariant sender.closes > 0 <==> sender.currentTxBytes == TOTAL_TX_BYTES
      invariant sender.closes == Completions(all[..i + 1])
      invariant sender.currentTxBytes == AdvanceAll(0, all[..i + 1])
    {
      PrefixNext(all, i + 1);
      sender.WriteUntilBufferFull(callbacks[i]);
    }
    assert all[..|all|] == all;
    sent, closes := sender.sent, sender.closes;
    forall i | 0 <= i < |sent| ensures sent[i] == "abcdefghijklmnopqrstuvwxyz"[i % 26] as nat {
      LetterIs(i);
    }
  }

  lemma PrefixNext(callbacks: seq<seq<Answer>>, i: nat)
    requires i < |callbacks|
    ensures AdvanceAll(0, callbacks[..0]) == 0 && Completions(callbacks[..0]) == 0
    ensures AdvanceAll(0, callbacks[..i + 1]) == Advance(AdvanceAll(0, callbacks[..i]), callbacks[i])
    ensures Completions(callbacks[..i + 1])
         == Completions(callbacks[..i]) + (if AdvanceAll(0, callbacks[..i + 1]) == TOTAL_TX_BYTES then 1 else 0)
  {
    hide Advance;
    assert callbacks[..i + 1][..i] == callbacks[..i];
  }
}
