/** The sending application of the large transfer example (examples/tcp/tcp-large-transfer.cc):
    it writes a repeating pattern into a socket that takes what it has room for. */
module BufferWriter {

  const TOTAL_TX_BYTES: nat := 2000000
  const WRITE_SIZE: nat := 1040
  const TWO_32: nat := 0x1_0000_0000

  type Byte = b: int | 0 <= b < 256

  /** Byte `k` of the endless pattern: the letters from `a` on. */
  function Letter(k: nat): Byte {
    97 + k % 26
  }

  /** The alphabet, over and over. */
  lemma LettersAreTheAlphabet(k: nat)
    ensures Letter(k) as char == "abcdefghijklmnopqrstuvwxyz"[k % 26]
  {
  }

  ghost function Pattern(n: nat): (s: seq<Byte>)
    ensures |s| == n && forall k | 0 <= k < n :: s[k] == Letter(k)
  {
    seq(n, k requires 0 <= k < n => Letter(k))
  }

  /** Entry `j` behind the write position of a buffer of this size continues the pattern. */
  ghost predicate Continues(size: nat, sent: nat, j: nat)
    requires size > 0
  {
    sent % size + j < size ==> Letter(sent % size + j) == Letter(sent + j)
  }

  /** A buffer of any size that repeats the pattern from its start continues it at every offset
      exactly when the size is a multiple of 26, as 1040 is. */
  lemma SplicesIff(size: nat)
    requires size > 0
    ensures (forall sent: nat, j: nat :: Continues(size, sent, j)) <==> size % 26 == 0
  {
    if size % 26 == 0 {
      forall sent: nat, j: nat
        ensures Continues(size, sent, j)
      {
        SplicesAt(size, sent, j);
      }
    } else {
      assert size % size == 0;
      assert !Continues(size, size, 0);
    }
  }

  lemma SplicesAt(size: nat, sent: nat, j: nat)
    requires size > 0 && size % 26 == 0
    ensures Letter(sent % size + j) == Letter(sent + j)
  {
    hide Letter;
    var rounds, rest := DivideAndRest(sent, size);
    Shifted(sent, rest, rounds, size / 26, size, j);
  }

  lemma DivideAndRest(sent: nat, size: nat) returns (rounds: nat, rest: nat)
    requires size > 0
    ensures rest == sent % size && sent == rest + rounds * size
  {
    rounds, rest := sent / size, sent % size;
  }

  lemma Shifted(sent: nat, rest: nat, rounds: nat, words: nat, size: nat, j: nat)
    requires sent == rest + rounds * size && size == words * 26
    ensures Letter(rest + j) == Letter(sent + j)
  {
    hide Letter;
    Regroup(rounds, words, size);
    LetterRepeats(rest + j, rounds * words);
  }

  lemma Regroup(rounds: nat, words: nat, size: nat)
    requires size == words * 26
    ensures rounds * size == (rounds * words) * 26
  {
  }

  lemma {:induction false} LetterRepeats(k: nat, times: nat)
    ensures Letter(k + times * 26) == Letter(k)
  {
    if times > 0 {
      LetterRepeats(k, times - 1);
    }
  }

  /** The part of the buffer that is written next continues the pattern. */
  lemma NextPart(data: seq<Byte>, sent: nat, n: nat)
    requires data == Pattern(WRITE_SIZE) && sent % WRITE_SIZE + n <= WRITE_SIZE
    ensures Pattern(sent) + data[sent % WRITE_SIZE..sent % WRITE_SIZE + n] == Pattern(sent + n)
  {
    hide Letter;
    var offset := sent % WRITE_SIZE;
    var part := data[offset..offset + n];
    forall j | 0 <= j < n
      ensures part[j] == Letter(sent + j)
    {
      SplicesAt(WRITE_SIZE, sent, j);
      assert part[j] == data[offset + j] == Letter(offset + j);
    }
  }

  /** Any number from `low` up to, but not including, `high`. */
  method AnyBetween(low: nat, high: nat) returns (n: nat)
    requires low < high
    ensures low <= n < high
  {
    n := low;
    while n + 1 < high
      invariant low <= n < high
    {
      if * {
        break;
      }
      n := n + 1;
    }
  }

  // ----- The socket, as far as the application sees it -----

  /** A call of `Send`: the bytes accepted before it, the bytes offered, and the room there was. */
  datatype Offer = Offer(before: nat, size: nat, room: nat)

  class Socket {
    ghost var received: seq<Byte>
    ghost var offers: seq<Offer>
    ghost var lastRefused: bool
    var closed: bool
    var txAvailable: nat

    constructor (room: nat)
      requires room < TWO_32
      ensures received == [] && offers == [] && !lastRefused && !closed && txAvailable == room
    {
      received, offers, lastRefused := [], [], false;
      closed := false;
      txAvailable := room;
    }

    /** Refuse the bytes, or accept some of them, and have any room left afterwards. */
    method Send(data: seq<Byte>) returns (amount: int)
      requires 0 < |data| <= txAvailable
      modifies this
      ensures closed == old(closed) && txAvailable < TWO_32
      ensures amount < 0 || 0 < amount <= |data|
      ensures lastRefused <==> amount < 0
      ensures offers == old(offers) + [Offer(|old(received)|, |data|, old(txAvailable))]
      ensures received == old(received) + if amount < 0 then [] else data[..amount]
    {
      offers := offers + [Offer(|received|, |data|, txAvailable)];
      if * {
        amount := -1;
      } else {
        amount := AnyBetween(1, |data| + 1);
        received := received + data[..amount];
      }
      lastRefused := amount < 0;
      txAvailable := AnyBetween(0, TWO_32);
    }

    /** Acknowledgements free room before the application is called back. */
    method FreeRoom(room: nat)
      requires room < TWO_32
      modifies `txAvailable, `lastRefused
      ensures txAvailable == room && !lastRefused
    {
      txAvailable, lastRefused := room, false;
    }

    method Close()
      modifies `closed
      ensures closed
    {
      closed := true;
    }
  }

  // ----- The application -----

  function Min(a: nat, b: nat): (m: nat)
    ensures m <= a && m <= b && (m == a || m == b)
  {
    if a < b then a else b
  }

  /** Each offer is as large as the end of the buffer, the bytes left and the room allow. */
  ghost predicate Largest(o: Offer) {
    && o.before < TOTAL_TX_BYTES && o.room > 0
    && o.size == Min(Min(WRITE_SIZE - o.before % WRITE_SIZE, TOTAL_TX_BYTES - o.before), o.room)
  }

  class Writer {
    const socket: Socket
    const data: array<Byte>
    var currentTxBytes: nat

    /** What holds between any two callbacks: the socket was handed exactly the first
        `currentTxBytes` bytes of the pattern, each time as many as possible, and is closed only
        if those are all. */
    ghost predicate Valid()
      reads this, socket, data
    {
      && data[..] == Pattern(WRITE_SIZE)
      && currentTxBytes <= TOTAL_TX_BYTES
      && socket.received == Pattern(currentTxBytes)
      && socket.txAvailable < TWO_32
      && (forall o | o in socket.offers :: Largest(o))
      && (socket.closed ==> currentTxBytes == TOTAL_TX_BYTES)
    }

    constructor (socket: Socket)
      requires socket.received == [] && socket.offers == [] && !socket.closed && socket.txAvailable < TWO_32
      ensures Valid() && this.socket == socket && fresh(data) && currentTxBytes == 0
    {
      this.socket := socket;
      data := new Byte[WRITE_SIZE](i requires 0 <= i < WRITE_SIZE => Letter(i));
      currentTxBytes := 0;
    }

    /** Write until everything is sent, or there is no room, or the socket refuses. */
    method WriteUntilBufferFull()
      requires Valid()
      modifies this, socket
      ensures Valid() && currentTxBytes >= old(currentTxBytes)
      ensures currentTxBytes == TOTAL_TX_BYTES ==> socket.closed
      ensures currentTxBytes == TOTAL_TX_BYTES || socket.txAvailable == 0 || socket.lastRefused
      ensures old(currentTxBytes) < TOTAL_TX_BYTES && old(socket.txAvailable) > 0 ==>
                |socket.offers| > |old(socket.offers)|
    {
      hide Letter, Largest, Pattern;
      while currentTxBytes < TOTAL_TX_BYTES && socket.txAvailable > 0
        invariant Valid() && currentTxBytes >= old(currentTxBytes)
        invariant |socket.offers| >= |old(socket.offers)|
        invariant |socket.offers| > |old(socket.offers)|
                  || (currentTxBytes == old(currentTxBytes) && socket.txAvailable == old(socket.txAvailable))
        decreases TOTAL_TX_BYTES - currentTxBytes
      {
        var refused := Write();
        if refused {
          return;
        }
      }
      if currentTxBytes >= TOTAL_TX_BYTES {
        socket.Close();
      }
    }

    /** The body of the loop: one write. */
    method Write() returns (refused: bool)
      requires Valid() && currentTxBytes < TOTAL_TX_BYTES && socket.txAvailable > 0
      modifies this, socket
      ensures Valid() && |socket.offers| == |old(socket.offers)| + 1 && refused == socket.lastRefused
      ensures if refused then currentTxBytes == old(currentTxBytes) else currentTxBytes > old(currentTxBytes)
    {
      hide Letter;
      var left := TOTAL_TX_BYTES - currentTxBytes;
      var dataOffset := currentTxBytes % WRITE_SIZE;
      var toWrite := WRITE_SIZE - dataOffset;
      toWrite := Min(toWrite, left);
      toWrite := Min(toWrite, socket.txAvailable);
      assert Largest(Offer(|socket.received|, toWrite, socket.txAvailable));
      ghost var offers := socket.offers;
      var amountSent := socket.Send(data[dataOffset..dataOffset + toWrite]);
      OneMoreOffer(offers, socket.offers);
      if amountSent < 0 {
        return true;
      }
      NextPart(data[..], currentTxBytes, amountSent);
      assert data[dataOffset..dataOffset + toWrite][..amountSent] == data[..][dataOffset..dataOffset + amountSent];
      currentTxBytes := currentTxBytes + amountSent;
      return false;
    }
  }

  lemma OneMoreOffer(offers: seq<Offer>, more: seq<Offer>)
    requires more != [] && more == offers + [more[|more| - 1]]
    requires Largest(more[|more| - 1]) && forall o | o in offers :: Largest(o)
    ensures forall o | o in more :: Largest(o)
  {
  }

  /** A whole flow: the first call, and then a callback each time room becomes available.  In
      every such run the socket gets the pattern from its start, no more than the total, and is
      closed exactly when it has got all of it; otherwise it has no room or refused the last write. */
  method Flow(room: nat, callbacks: seq<nat>) returns (writer: Writer)
    requires room < TWO_32 && forall i | 0 <= i < |callbacks| :: callbacks[i] < TWO_32
    ensures writer.Valid()
    ensures writer.socket.closed <==> writer.currentTxBytes == TOTAL_TX_BYTES
    ensures writer.socket.closed || writer.socket.txAvailable == 0 || writer.socket.lastRefused
    ensures |writer.socket.received| <= 2000000 && (writer.socket.closed <==> |writer.socket.received| == 2000000)
    ensures forall k | 0 <= k < |writer.socket.received| ::
              writer.socket.received[k] as char == "abcdefghijklmnopqrstuvwxyz"[k % 26]
    ensures forall o | o in writer.socket.offers :: 0 < o.size <= o.room && o.before % 1040 + o.size <= 1040
  {
    var socket := new Socket(room);
    writer := new Writer(socket);
    writer.WriteUntilBufferFull();
    for i := 0 to |callbacks|
      invariant writer.Valid() && writer.socket == socket && fresh(socket) && fresh(writer)
      invariant writer.currentTxBytes == TOTAL_TX_BYTES ==> socket.closed
      invariant socket.closed || socket.txAvailable == 0 || socket.lastRefused
    {
      socket.FreeRoom(callbacks[i]);
      writer.WriteUntilBufferFull();
    }
    PatternIsAlphabet(writer.currentTxBytes);
    forall o | o in socket.offers
      ensures 0 < o.size <= o.room && o.before % 1040 + o.size <= 1040
    {
      LargestFits(o);
    }
  }

  lemma PatternIsAlphabet(n: nat)
    ensures forall k | 0 <= k < n :: Pattern(n)[k] as char == "abcdefghijklmnopqrstuvwxyz"[k % 26]
  {
    forall k | 0 <= k < n
      ensures Pattern(n)[k] as char == "abcdefghijklmnopqrstuvwxyz"[k % 26]
    {
      LettersAreTheAlphabet(k);
    }
  }

  lemma LargestFits(o: Offer)
    requires Largest(o)
    ensures 0 < o.size <= o.room && o.before % 1040 + o.size <= 1040
  {
  }
}
