/** The resumable writer: a stream of 2000000 bytes is offered piecewise, across any number of
    callbacks, to a socket that takes as much as it likes. */
module TcpLargeTransfer {

  const TOTAL_TX_BYTES: nat := 2000000
  const WRITE_SIZE: nat := 1040

  /** The k-th byte of the stream: a to z over and over. */
  function StreamByte(k: nat): nat {
    97 + k % 26
  }

  lemma StreamIsTheAlphabet(k: nat)
    ensures StreamByte(k) == "abcdefghijklmnopqrstuvwxyz"[k % 26] as int
  {
  }

  function Stream(n: nat): (s: seq<nat>)
    ensures |s| == n && forall k :: 0 <= k < n ==> s[k] == StreamByte(k)
  {
    seq(n, k requires 0 <= k => StreamByte(k))
  }

  /** What the socket does in one round of the loop: the space it reports when the loop condition and when
      the amount to write are computed, and what Send returns if it is offered at least that much. */
  datatype Round = Round(space: nat, spaceAgain: nat, sent: int)

  /** The rounds that take something before the socket has no space or refuses. */
  function Takes(rounds: seq<Round>): nat
    decreases |rounds|
  {
    if rounds == [] || rounds[0].space == 0 || rounds[0].sent < 0 then 0
    else (if rounds[0].spaceAgain > 0 && rounds[0].sent > 0 then 1 else 0) + Takes(rounds[1..])
  }

  lemma TakesFrom(rounds: seq<Round>, k: nat)
    requires k <= |rounds|
    ensures Takes(rounds[k..]) ==
            if k == |rounds| || rounds[k].space == 0 || rounds[k].sent < 0 then 0
            else (if rounds[k].spaceAgain > 0 && rounds[k].sent > 0 then 1 else 0) + Takes(rounds[k + 1..])
  {
    if k < |rounds| {
      assert rounds[k..][1..] == rounds[k + 1..];
    }
  }

  /** The first round in which the socket has no space or refuses. */
  function Stop(rounds: seq<Round>): (k: nat)
    ensures k <= |rounds| && forall i :: 0 <= i < k ==> rounds[i].space > 0 && rounds[i].sent >= 0
    ensures k < |rounds| ==> rounds[k].space == 0 || rounds[k].sent < 0
  {
    if rounds == [] || rounds[0].space == 0 || rounds[0].sent < 0 then 0 else 1 + Stop(rounds[1..])
  }

  /** The round that stops the socket is a refusal, not a lack of space. */
  predicate StopsRefusing(rounds: seq<Round>) {
    Stop(rounds) < |rounds| && rounds[Stop(rounds)].space > 0
  }

  function TakesOfAll(callbacks: seq<seq<Round>>): nat {
    if callbacks == [] then 0 else TakesOfAll(callbacks[..|callbacks| - 1]) + Takes(callbacks[|callbacks| - 1])
  }

  function Trues(flags: seq<bool>): (n: nat)
    ensures n == |set i | 0 <= i < |flags| && flags[i]|
  {
    if flags == [] then 0
    else
      var m := |flags| - 1;
      ghost var before := set i | 0 <= i < m && flags[..m][i];
      assert (set i | 0 <= i < |flags| && flags[i]) == before + if flags[m] then {m} else {};
      Trues(flags[..m]) + if flags[m] then 1 else 0
  }

  function AtMostAll(n: nat): nat {
    if n < TOTAL_TX_BYTES then n else TOTAL_TX_BYTES
  }

  /** The write size is a multiple of the period of the stream, so the buffer can be read from any offset. */
  lemma BufferIsPeriodic(current: nat, j: nat)
    requires j < WRITE_SIZE - current % WRITE_SIZE
    ensures StreamByte(current % WRITE_SIZE + j) == StreamByte(current + j)
  {
    var q := current / WRITE_SIZE;
    assert current + j == current % WRITE_SIZE + j + 26 * (40 * q);
    ModPeriod(current % WRITE_SIZE + j, 40 * q);
  }

  lemma {:induction false} ModPeriod(a: nat, k: nat)
    ensures (a + 26 * k) % 26 == a % 26
  {
    if k > 0 {
      ModPeriod(a, k - 1);
      assert a + 26 * k == (a + 26 * (k - 1)) + 26;
    }
  }

  /** The slice of the buffer at the current offset continues the stream. */
  lemma SliceContinues(buffer: seq<nat>, current: nat, amount: nat)
    requires buffer == Stream(WRITE_SIZE) && current % WRITE_SIZE + amount <= WRITE_SIZE
    ensures Stream(current) + buffer[current % WRITE_SIZE..current % WRITE_SIZE + amount] == Stream(current + amount)
  {
    hide StreamByte;
    var offset := current % WRITE_SIZE;
    var slice := buffer[offset..offset + amount];
    forall j: nat | j < amount
      ensures slice[j] == Stream(current + amount)[current + j]
    {
      BufferIsPeriodic(current, j);
    }
  }

  class Writer {
    var data: array<nat>
    var currentTxBytes: nat
    /** What the socket has accepted. */
    var accepted: seq<nat>
    var closes: nat

    ghost predicate Valid()
      reads this, data
    {
      && data.Length == WRITE_SIZE
      && data[..] == Stream(WRITE_SIZE)
      && currentTxBytes <= TOTAL_TX_BYTES
      && accepted == Stream(currentTxBytes)
    }

    constructor ()
      ensures Valid() && fresh(data) && currentTxBytes == 0 && closes == 0
    {
      data := new nat[WRITE_SIZE];
      currentTxBytes, accepted, closes := 0, [], 0;
      new;
      var i := 0;
      while i < WRITE_SIZE
        invariant 0 <= i <= WRITE_SIZE && data.Length == WRITE_SIZE && fresh(data)
        invariant currentTxBytes == 0 && accepted == [] && closes == 0
        invariant forall k :: 0 <= k < i ==> data[k] == StreamByte(k)
        modifies data
      {
        data[i] := (97 + i % 26) % 128;
        i := i + 1;
      }
    }

    /** One callback. rounds is what the socket does; when it is used up the socket reports no space.
        used is the number of completed rounds. A refused send (negative) ends the callback without closing;
        otherwise the socket is closed, with everything sent or with no space left. */
    method WriteUntilBufferFull(rounds: seq<Round>) returns (refused: bool, used: nat)
      requires Valid()
      modifies this`currentTxBytes, this`accepted, this`closes
      ensures Valid() && used <= |rounds|
      ensures old(accepted) <= accepted
      ensures closes == old(closes) + if refused then 0 else 1
      ensures refused ==> used < |rounds| && rounds[used].sent < 0 && currentTxBytes < TOTAL_TX_BYTES
      ensures !refused ==> currentTxBytes == TOTAL_TX_BYTES || used == |rounds| || rounds[used].space == 0
      ensures forall k :: 0 <= k < used ==> rounds[k].space > 0 && rounds[k].sent >= 0
      ensures refused ==> rounds[used].space > 0
      ensures refused <==> currentTxBytes < TOTAL_TX_BYTES && StopsRefusing(rounds)
      ensures (forall k :: 0 <= k < used ==> rounds[k].spaceAgain > 0 && rounds[k].sent > 0) ==>
        currentTxBytes >= old(currentTxBytes) + used
      ensures currentTxBytes >= AtMostAll(old(currentTxBytes) + Takes(rounds))
    {
      hide StreamByte;
      hide Stop;
      hide Takes;
      used := 0;
      assert rounds[0..] == rounds;
      while currentTxBytes < TOTAL_TX_BYTES && used < |rounds| && rounds[used].space > 0
        invariant 0 <= used <= |rounds| && Valid() && closes == old(closes)
        invariant old(accepted) <= accepted
        invariant forall k :: 0 <= k < used ==> rounds[k].space > 0 && rounds[k].sent >= 0
        invariant (forall k :: 0 <= k < used ==> rounds[k].spaceAgain > 0 && rounds[k].sent > 0) ==>
          currentTxBytes >= old(currentTxBytes) + used
        invariant currentTxBytes + Takes(rounds[used..]) >= old(currentTxBytes) + Takes(rounds)
        decreases |rounds| - used
      {
        TakesFrom(rounds, used);
        var left := TOTAL_TX_BYTES - currentTxBytes;
        var dataOffset := currentTxBytes % WRITE_SIZE;
        var toWrite := WRITE_SIZE - dataOffset;
        toWrite := if left < toWrite then left else toWrite;
        toWrite := if rounds[used].spaceAgain < toWrite then rounds[used].spaceAgain else toWrite;
        var amountSent := Send(data, dataOffset, toWrite, rounds[used].spaceAgain, rounds[used].sent);
        if amountSent < 0 {
          return true, used;
        }
        currentTxBytes := currentTxBytes + amountSent;
        used := used + 1;
      }
      TakesFrom(rounds, used);
      closes := closes + 1;
      return false, used;
    }

    /** The socket: it is offered as much as the rest of the buffer, the rest of the stream and its own space
        allow, and accepts a prefix of that. */
    method Send(buffer: array<nat>, offset: nat, toWrite: nat, ghost space: nat, wish: int) returns (amountSent: int)
      requires buffer == data && Valid() && offset == currentTxBytes % WRITE_SIZE
      requires offset + toWrite <= buffer.Length && currentTxBytes + toWrite <= TOTAL_TX_BYTES && toWrite <= space
      requires toWrite == space || offset + toWrite == buffer.Length || currentTxBytes + toWrite == TOTAL_TX_BYTES
      modifies this`accepted
      ensures amountSent <= toWrite && (amountSent < 0 <==> wish < 0)
      ensures wish > 0 && toWrite > 0 ==> amountSent > 0
      ensures accepted == Stream(currentTxBytes + if amountSent < 0 then 0 else amountSent)
      ensures old(accepted) <= accepted
    {
      if wish < 0 {
        return wish;
      }
      amountSent := if wish < toWrite then wish else toWrite;
      SliceContinues(buffer[..], currentTxBytes, amountSent);
      assert buffer[offset..offset + amountSent] == buffer[..][offset..offset + amountSent];
      accepted := accepted + buffer[offset..offset + amountSent];
    }
  }

  /** A whole transfer: the first call and then one callback after the other, with a socket that
      reports any space and accepts or refuses anything at any time. Once it has taken something
      often enough, it has the whole stream. */
  method Transfer(callbacks: seq<seq<Round>>) returns (w: Writer, refused: seq<bool>)
    ensures w.Valid()
    ensures w.accepted <= Stream(TOTAL_TX_BYTES)
    ensures w.currentTxBytes >= AtMostAll(TakesOfAll(callbacks))
    ensures TakesOfAll(callbacks) >= TOTAL_TX_BYTES ==> w.accepted == Stream(TOTAL_TX_BYTES)
    ensures |refused| == |callbacks| && w.closes == |callbacks| - Trues(refused)
    ensures forall i :: 0 <= i < |callbacks| && refused[i] ==> StopsRefusing(callbacks[i])
    ensures w.currentTxBytes < TOTAL_TX_BYTES ==>
      forall i :: 0 <= i < |callbacks| ==> (refused[i] <==> StopsRefusing(callbacks[i]))
  {
    hide Stop;
    hide StopsRefusing;
    hide StreamByte;
    hide Takes;
    hide TakesOfAll;
    hide Trues;
    NothingYet();
    w := new Writer();
    refused := [];
    for i := 0 to |callbacks|
      invariant w.Valid() && fresh(w) && fresh(w.data)
      invariant w.currentTxBytes >= AtMostAll(TakesOfAll(callbacks[..i]))
      invariant |refused| == i && w.closes == i - Trues(refused)
      invariant forall k :: 0 <= k < i && refused[k] ==> StopsRefusing(callbacks[k])
      invariant w.currentTxBytes < TOTAL_TX_BYTES ==>
        forall k :: 0 <= k < i ==> (refused[k] <==> StopsRefusing(callbacks[k]))
    {
      TakesOfMore(callbacks, i);
      var stopped, _ := w.WriteUntilBufferFull(callbacks[i]);
      TruesOfMore(refused, stopped);
      refused := refused + [stopped];
    }
    assert callbacks[..|callbacks|] == callbacks;
  }

  lemma NothingYet()
    ensures TakesOfAll([]) == 0 && Trues([]) == 0
  {
  }

  lemma TakesOfMore(callbacks: seq<seq<Round>>, i: nat)
    requires i < |callbacks|
    ensures TakesOfAll(callbacks[..i + 1]) == TakesOfAll(callbacks[..i]) + Takes(callbacks[i])
  {
    assert callbacks[..i + 1][..i] == callbacks[..i];
  }

  lemma TruesOfMore(flags: seq<bool>, flag: bool)
    ensures Trues(flags + [flag]) == Trues(flags) + if flag then 1 else 0
  {
    assert (flags + [flag])[..|flags|] == flags;
  }
}
