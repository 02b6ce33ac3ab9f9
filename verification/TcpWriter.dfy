/** The sending application of a large TCP transfer: on every callback it writes from a fixed
    buffer until the transmit buffer is full or everything is sent.

    The socket is the environment: it takes any positive part of a write or refuses it, and its
    free space is any number after each call. */
module TcpWriter {

  const TOTAL_TX_BYTES := 2000000
  const WRITE_SIZE := 1040

  /** Byte p of the stream. */
  function Pattern(p: nat): int {
    97 + p % 26
  }

  ghost predicate IsStream(s: seq<int>) {
    forall p :: 0 <= p < |s| ==> s[p] == Pattern(p)
  }

  /** The buffer holds whole periods of the pattern, so it continues itself. */
  lemma BufferContinues(sent: nat, i: nat)
    requires sent % WRITE_SIZE + i < WRITE_SIZE
    ensures Pattern(sent + i) == Pattern(sent % WRITE_SIZE + i)
  {
  }

  /** One write: what had been sent, the free space, and the part of the buffer that was offered. */
  datatype Write = Write(sent: nat, space: nat, offset: nat, length: nat)

  /** The longest part that starts where the stream goes on, lies in the buffer, does not exceed what
      is left and fits the free space. */
  predicate IsLongest(w: Write) {
    && w.sent < 2000000 && w.offset == w.sent % 1040
    && 0 < w.length <= 1040 - w.offset && w.length <= 2000000 - w.sent && w.length <= w.space
    && (w.length == 1040 - w.offset || w.length == 2000000 - w.sent || w.length == w.space)
  }

  class Transfer {
    const data: array<int>
    var currentTxBytes: nat
    var accepted: seq<int>   // what the socket has taken
    var txAvailable: nat     // its free space
    var closes: nat          // how often it was closed
    var refusals: nat        // how many writes it has refused
    ghost var writes: seq<Write>   // history: what it was offered

    ghost predicate Valid()
      reads this, data
    {
      && data.Length == WRITE_SIZE && IsStream(data[..])
      && currentTxBytes == |accepted| <= TOTAL_TX_BYTES && IsStream(accepted)
      && (closes > 0 ==> currentTxBytes == TOTAL_TX_BYTES)
      && forall i :: 0 <= i < |writes| ==> IsLongest(writes[i])
    }

    constructor ()
      ensures Valid() && accepted == [] && closes == 0 && fresh(data)
    {
      data := new int[WRITE_SIZE];
      currentTxBytes, accepted, txAvailable, closes, refusals := 0, [], 0, 0, 0;
      writes := [];
      new;
      var i := 0;
      while i < WRITE_SIZE
        invariant 0 <= i <= WRITE_SIZE == data.Length
        invariant forall k :: 0 <= k < i ==> data[k] == Pattern(k)
        invariant currentTxBytes == 0 && accepted == [] && closes == 0 && writes == []
        modifies data
      {
        data[i] := 97 + i % 26;
        i := i + 1;
      }
    }

    method Send(offset: nat, toWrite: nat) returns (amountSent: int)
      requires offset + toWrite <= data.Length && 0 < toWrite <= txAvailable
      modifies this`accepted, this`txAvailable, this`refusals, this`writes
      ensures writes == old(writes) + [Write(old(|accepted|), old(txAvailable), offset, toWrite)]
      ensures amountSent < 0 ==> accepted == old(accepted) && refusals == old(refusals) + 1
      ensures amountSent >= 0 ==> 0 < amountSent <= toWrite && refusals == old(refusals)
                                  && accepted == old(accepted) + data[offset..offset + amountSent]
    {
      var taken: int := *;
      var space: nat := *;
      writes := writes + [Write(|accepted|, txAvailable, offset, toWrite)];
      txAvailable := space;
      if 0 < taken <= toWrite {
        amountSent := taken;
        accepted := accepted + data[offset..offset + taken];
      } else {
        amountSent := -1;
        refusals := refusals + 1;
      }
    }

    /** One callback.  It extends the stream until everything is sent, the buffer is full or a
        write is refused.  It closes the socket exactly when everything has been sent, so once
        more in every callback after that. */
    method WriteUntilBufferFull()
      requires Valid()
      modifies this`currentTxBytes, this`accepted, this`txAvailable, this`closes, this`refusals, this`writes
      ensures Valid() && old(accepted) <= accepted && old(writes) <= writes
      ensures closes == old(closes) + if currentTxBytes == TOTAL_TX_BYTES then 1 else 0
      ensures old(refusals) <= refusals <= old(refusals) + 1
      ensures currentTxBytes < TOTAL_TX_BYTES ==> txAvailable == 0 || refusals > old(refusals)
      ensures old(txAvailable) > 0 && old(currentTxBytes) < TOTAL_TX_BYTES ==>
                currentTxBytes > old(currentTxBytes) || refusals > old(refusals)
    {
      while currentTxBytes < TOTAL_TX_BYTES && txAvailable > 0
        invariant Valid() && old(accepted) <= accepted && old(writes) <= writes
        invariant closes == old(closes) && refusals == old(refusals)
        invariant currentTxBytes == old(currentTxBytes) ==> txAvailable == old(txAvailable)
        decreases TOTAL_TX_BYTES - currentTxBytes
      {
        var left := TOTAL_TX_BYTES - currentTxBytes;
        var dataOffset := currentTxBytes % WRITE_SIZE;
        var toWrite := WRITE_SIZE - dataOffset;
        toWrite := if left < toWrite then left else toWrite;
        toWrite := if txAvailable < toWrite then txAvailable else toWrite;
        ghost var before := accepted;
        var amountSent := Send(dataOffset, toWrite);
        if amountSent < 0 { return; }
        forall p | 0 <= p < |accepted| ensures accepted[p] == Pattern(p) {
          if p >= |before| { BufferContinues(|before|, p - |before|); }
        }
        currentTxBytes := currentTxBytes + amountSent;
      }
      if currentTxBytes >= TOTAL_TX_BYTES {
        closes := closes + 1;
      }
    }

    /** Any number of callbacks, with any free space at each. */
    method Run(callbacks: nat)
      requires Valid() && accepted == [] && closes == 0
      modifies this`currentTxBytes, this`accepted, this`txAvailable, this`closes, this`refusals, this`writes
      ensures forall p :: 0 <= p < |accepted| ==> accepted[p] == 97 + p % 26
      ensures |accepted| <= 2000000 && (closes > 0 ==> |accepted| == 2000000)
      ensures forall i :: 0 <= i < |writes| ==> IsLongest(writes[i])
    {
      for i := 0 to callbacks
        invariant Valid()
      {
        var space: nat := *;
        txAvailable := space;
        WriteUntilBufferFull();
      }
    }

    /** Enough callbacks that find free space and meet no refusal: everything is sent and the
        socket closed. */
    method RunUnrefused(callbacks: nat)
      requires Valid() && callbacks >= TOTAL_TX_BYTES
      modifies this`currentTxBytes, this`accepted, this`txAvailable, this`closes, this`refusals, this`writes
      ensures Valid() && refusals >= old(refusals)
      ensures refusals == old(refusals) ==> |accepted| == 2000000 && closes > 0
    {
      for i := 0 to callbacks
        invariant Valid() && refusals >= old(refusals)
        invariant refusals == old(refusals) ==> currentTxBytes >= i || currentTxBytes == TOTAL_TX_BYTES
        invariant refusals == old(refusals) && i > 0 && currentTxBytes == TOTAL_TX_BYTES ==> closes > 0
      {
        var space: nat :| space > 0;
        txAvailable := space;
        WriteUntilBufferFull();
      }
    }
  }
}
