/**
  The firmware upload script as it reads and writes its socket (scripts/ota_upload.py).

  A socket gives what the peer sends before closing in pieces of any size; a read returns at
  least one byte and at most as many as asked for, or nothing once the peer has closed.
 */
module OtaClient {
  import opened Wrappers

  type Byte = b: int | 0 <= b < 256

  const ACK_INTERVAL := 8192
  const CHUNK := 1024
  const MAGIC: Byte := 0x6C
  const OK: Byte := 0
  const UINT32 := 0x1_0000_0000

  datatype Error = ConnectionClosed | Rejected(code: Byte) | SizeTooLarge

  class Socket {
    var input: seq<Byte>   // still to come from the peer
    var output: seq<Byte>  // sent to the peer

    constructor (input: seq<Byte>)
      ensures this.input == input && output == []
    {
      this.input := input;
      output := [];
    }

    /** However the stream is cut: any number of bytes from one to `n`. */
    method Recv(n: nat) returns (data: seq<Byte>)
      requires n > 0
      modifies this`input
      ensures data + input == old(input) && |data| <= n
      ensures data == [] <==> old(input) == []
    {
      if input == [] {
        return [];
      }
      var k: nat :| 1 <= k <= n && k <= |input|;
      data := input[..k];
      input := input[k..];
    }

    method SendAll(data: seq<Byte>)
      modifies this`output
      ensures output == old(output) + data
    {
      output := output + data;
    }

    /** Exactly `n` bytes if the peer sends that many before closing, else an error: the cuts do not matter. */
    method RecvExact(n: nat) returns (r: Result<seq<Byte>, Error>)
      modifies this`input
      ensures
        if |old(input)| >= n then r == Result.Ok(old(input)[..n]) && input == old(input)[n..]
        else r == Err(ConnectionClosed) && input == []
    {
      var data: seq<Byte> := [];
      while |data| < n
        invariant |data| <= n && data + input == old(input)
      {
        var chunk := Recv(n - |data|);
        if chunk == [] {
          assert data == old(input);
          return Err(ConnectionClosed);
        }
        assert data + chunk + input == data + (chunk + input);
        data := data + chunk;
      }
      return Result.Ok(data);
    }

    /** A response code; anything but OK is an error. */
    method Expect() returns (r: Result<Byte, Error>)
      modifies this`input
      ensures r == Answer(old(input))
      ensures input == if old(input) == [] then [] else old(input)[1..]
    {
      var data := RecvExact(1);
      if data.Err? {
        return Err(data.error);
      }
      var code := data.value[0];
      if code != OK {
        return Err(Rejected(code));
      }
      return Result.Ok(code);
    }

    /** The blocks and chunks of the firmware. */
    method SendFirmware(firmware: seq<Byte>) returns (r: Result<(), Error>)
      modifies this
      ensures var n := Accepted(old(input), Boundaries(|firmware|));
        && output == old(output) + firmware[..SentAfter(|firmware|, n)]
        && (r.Ok? <==> n == Boundaries(|firmware|))
        && (r.Ok? ==> input == old(input)[n..])
        && (r.Err? ==> Err(r.error) == Answer(old(input)[n..]))
    {
      hide Boundaries, Progress, Accepted, Answer, Blocks;
      var size := |firmware|;
      var total := (size + ACK_INTERVAL - 1) / ACK_INTERVAL;
      BlocksAndBoundaries(size);
      ProgressStart(input, size);
      for number := 0 to total
        invariant Progress(old(input), size, number, input)
        invariant output == old(output) + firmware[..Blocks(size, number)]
      {
        var start := number * ACK_INTERVAL;
        var end := if start + ACK_INTERVAL < size then start + ACK_INTERVAL else size;
        BlockBounds(size, number, end);
        SendBlock(firmware, start, end);
        SentNext(old(output), firmware, start, end);
        if end < size {
          ProgressNext(old(input), size, number, input);
          var code := Expect();
          if code.Err? {
            return Err(code.error);
          }
        } else {
          ProgressLast(old(input), size, number, input);
        }
      }
      ProgressDone(old(input), size, total, input);
      return Result.Ok(());
    }

    /** Magic byte, features and size. */
    method Greet(firmware: seq<Byte>) returns (r: Result<(), Error>)
      modifies this
      ensures r.Ok? <==> Greeted(firmware, old(input))
      ensures r.Ok? ==> output == old(output) + Greeting(|firmware|) && input == old(input)[2..]
      ensures r.Err? ==> output == old(output) + if old(input) == [] || |firmware| >= UINT32 then [MAGIC] else Greeting(|firmware|)
    {
      hide BigEndian;
      SendAll([MAGIC]);
      var features := RecvExact(1);
      if features.Err? {
        return Err(features.error);
      }
      if |firmware| >= UINT32 {
        return Err(SizeTooLarge);
      }
      SendAll(BigEndian(|firmware|));
      var code := Expect();
      if code.Err? {
        return Err(code.error);
      }
      return Result.Ok(());
    }

    /** The whole upload. A connection closed at the very end counts as success: the device is restarting. */
    method Upload(firmware: seq<Byte>, md5: seq<Byte>) returns (r: Result<(), Error>)
      requires |md5| == 16
      modifies this
      ensures output == old(output) + Sent(firmware, md5, old(input))
      ensures r.Ok? <==> Succeeds(firmware, old(input))
    {
      hide Greeting, Accepted, SentAfter, Boundaries, Succeeds;
      SucceedsInStages(firmware, input);
      ghost var responses := input[Min(2, |input|)..];
      var greeted := Greet(firmware);
      if greeted.Err? {
        return Err(greeted.error);
      }
      var sent := SendFirmware(firmware);
      if sent.Err? {
        return Err(sent.error);
      }
      SendAll(md5);
      var code := Expect();
      if code.Err? && code.error != ConnectionClosed {
        return Err(code.error);
      }
      return Result.Ok(());
    }

    /** One block, in chunks. */
    method SendBlock(firmware: seq<Byte>, start: nat, end: nat)
      requires start <= end <= |firmware|
      modifies this`output
      ensures output == old(output) + firmware[start..end]
    {
      var block := firmware[start..end];
      var offset := 0;
      while offset < |block|
        invariant offset <= |block| && output == old(output) + block[..offset]
      {
        var chunk := block[offset..if offset + CHUNK < |block| then offset + CHUNK else |block|];
        SendAll(chunk);
        assert block[..offset] + chunk == block[..offset + |chunk|];
        offset := offset + |chunk|;
      }
      assert block[..offset] == block;
    }
  }

  function Min(a: nat, b: nat): nat {
    if a < b then a else b
  }

  /** The first response in what the peer sends. */
  function Answer(input: seq<Byte>): Result<Byte, Error> {
    if input == [] then Err(ConnectionClosed)
    else if input[0] != OK then Err(Rejected(input[0]))
    else Result.Ok(input[0])
  }

  /** Acknowledgements awaited for a firmware: one for each block but the last. */
  function Boundaries(size: nat): nat {
    if size == 0 then 0 else (size - 1) / ACK_INTERVAL
  }

  /** After `number` blocks every acknowledgement so far was OK and has been taken. */
  ghost predicate Progress(all: seq<Byte>, size: nat, number: nat, rest: seq<Byte>) {
    var n := Min(number, Boundaries(size));
    n <= |all| && Accepted(all, n) == n && rest == all[n..]
  }

  lemma ProgressStart(all: seq<Byte>, size: nat)
    ensures Progress(all, size, 0, all)
  {
  }

  lemma ProgressNext(all: seq<Byte>, size: nat, number: nat, rest: seq<Byte>)
    requires Progress(all, size, number, rest) && number < Boundaries(size)
    ensures Answer(rest).Ok? ==> rest != [] && Progress(all, size, number + 1, rest[1..])
    ensures
      Answer(rest).Err? ==> var n := Accepted(all, Boundaries(size)); n == number && rest == all[n..]
  {
    hide Boundaries;
    AcceptedNext(all, number);
    if Answer(rest).Err? {
      AcceptedStops(all, number, Boundaries(size));
    }
  }

  lemma ProgressLast(all: seq<Byte>, size: nat, number: nat, rest: seq<Byte>)
    requires Progress(all, size, number, rest) && number >= Boundaries(size)
    ensures Progress(all, size, number + 1, rest)
  {
  }

  lemma ProgressDone(all: seq<Byte>, size: nat, number: nat, rest: seq<Byte>)
    requires Progress(all, size, number, rest) && number >= Boundaries(size)
    ensures Accepted(all, Boundaries(size)) == Boundaries(size) && rest == all[Boundaries(size)..]
  {
  }

  /** There is one block more than there are acknowledgements, unless there is nothing to send. */
  lemma BlocksAndBoundaries(size: nat)
    ensures (size + ACK_INTERVAL - 1) / ACK_INTERVAL == if size == 0 then 0 else Boundaries(size) + 1
    ensures size == 0 ==> Boundaries(size) == 0
    ensures Blocks(size, 0) == 0
    ensures Blocks(size, (size + ACK_INTERVAL - 1) / ACK_INTERVAL) == size == Blocks(size, Boundaries(size) + 1)
  {
  }

  lemma BlockBounds(size: nat, number: nat, end: nat)
    requires number < (size + ACK_INTERVAL - 1) / ACK_INTERVAL
    requires end == if number * ACK_INTERVAL + ACK_INTERVAL < size then number * ACK_INTERVAL + ACK_INTERVAL else size
    ensures Blocks(size, number) == number * ACK_INTERVAL <= end == Blocks(size, number + 1)
    ensures end < size <==> number < Boundaries(size)
  {
  }

  lemma SentNext(output: seq<Byte>, firmware: seq<Byte>, start: nat, end: nat)
    requires start <= end <= |firmware|
    ensures output + firmware[..start] + firmware[start..end] == output + firmware[..end]
  {
    assert firmware[..start] + firmware[start..end] == firmware[..end];
  }

  lemma BoundariesAreCeiling(size: nat)
    requires size > 0
    ensures Boundaries(size) == (size + ACK_INTERVAL - 1) / ACK_INTERVAL - 1
    ensures forall k: nat :: 0 < k <= Boundaries(size) <==> 0 < k * ACK_INTERVAL < size
  {
  }

  /** How many of at most `limit` leading responses are OK. */
  function Accepted(input: seq<Byte>, limit: nat): (n: nat)
    ensures n <= limit && n <= |input|
    ensures forall i :: 0 <= i < n ==> input[i] == OK
    ensures n < limit ==> n == |input| || input[n] != OK
  {
    if limit == 0 || input == [] || input[0] != OK then 0 else 1 + Accepted(input[1..], limit - 1)
  }

  /** Bytes sent by the time `n` acknowledgements have come. */
  function SentAfter(size: nat, n: nat): (r: nat)
    ensures r <= size
  {
    Blocks(size, n + 1)
  }

  /** Bytes in the first `number` blocks. */
  function Blocks(size: nat, number: nat): (r: nat)
    ensures r <= size
  {
    Min(number * ACK_INTERVAL, size)
  }

  lemma AcceptedNext(input: seq<Byte>, k: nat)
    requires k <= |input| && Accepted(input, k) == k
    ensures Accepted(input, k + 1) == if k < |input| && input[k] == OK then k + 1 else k
  {
  }

  lemma AcceptedStops(input: seq<Byte>, k: nat, limit: nat)
    requires k <= limit && Accepted(input, k) == k && (k == |input| || input[k] != OK)
    ensures Accepted(input, limit) == k
  {
  }

  lemma WholeSent(size: nat)
    ensures SentAfter(size, Boundaries(size)) == size
  {
  }

  // ------------------------------------------------------------------ the whole upload

  /** A 32-bit number, most significant byte first. */
  function BigEndian(n: nat): (r: seq<Byte>)
    requires n < UINT32
    ensures |r| == 4
  {
    [n / 0x100_0000, n / 0x1_0000 % 0x100, n / 0x100 % 0x100, n % 0x100]
  }

  function ReadBigEndian(b: seq<Byte>): nat
    requires |b| == 4
  {
    b[0] as int * 0x100_0000 + b[1] as int * 0x1_0000 + b[2] as int * 0x100 + b[3] as int
  }

  lemma BigEndianRoundTrip(n: nat)
    requires n < UINT32
    ensures ReadBigEndian(BigEndian(n)) == n
  {
    assert n == n / 0x100 * 0x100 + n % 0x100;
    assert n / 0x100 == n / 0x1_0000 * 0x100 + n / 0x100 % 0x100;
    assert n / 0x1_0000 == n / 0x100_0000 * 0x100 + n / 0x1_0000 % 0x100;
  }

  /** Everything a complete upload sends. */
  function Stream(firmware: seq<Byte>, md5: seq<Byte>): (r: seq<Byte>)
    requires |firmware| < UINT32
    ensures |r| == 5 + |firmware| + |md5|
  {
    [MAGIC] + BigEndian(|firmware|) + firmware + md5
  }

  function Greeting(size: nat): seq<Byte>
    requires size < UINT32
  {
    [MAGIC] + BigEndian(size)
  }

  predicate Greeted(firmware: seq<Byte>, input: seq<Byte>) {
    |firmware| < UINT32 && |input| >= 2 && input[1] == OK
  }

  /** What is sent to a peer that sends `input`. */
  function Sent(firmware: seq<Byte>, md5: seq<Byte>, input: seq<Byte>): seq<Byte> {
    if input == [] || |firmware| >= UINT32 then [MAGIC]
    else if !Greeted(firmware, input) then Greeting(|firmware|)
    else
      var n := Accepted(input[2..], Boundaries(|firmware|));
      Greeting(|firmware|) + firmware[..SentAfter(|firmware|, n)] + if n == Boundaries(|firmware|) then md5 else []
  }

  /** The size and every block but the last are accepted, and the end is not refused. */
  predicate Succeeds(firmware: seq<Byte>, input: seq<Byte>) {
    var n := Boundaries(|firmware|);
    && |firmware| < UINT32
    && |input| >= 2 + n
    && (forall i :: 1 <= i < 2 + n ==> input[i] == OK)
    && (|input| > 2 + n ==> input[2 + n] == OK)
  }

  lemma SucceedsInStages(firmware: seq<Byte>, input: seq<Byte>)
    ensures
      Succeeds(firmware, input) <==>
        && Greeted(firmware, input)
        && Accepted(input[2..], Boundaries(|firmware|)) == Boundaries(|firmware|)
        && Answer(input[2..][Boundaries(|firmware|)..]) in {Result.Ok(OK), Err(ConnectionClosed)}
  {
    var n := Boundaries(|firmware|);
    if Greeted(firmware, input) {
      var k := Accepted(input[2..], n);
      assert forall i :: 0 <= i < |input[2..]| ==> input[2..][i] == input[2 + i];
      assert k < n ==> k == |input[2..]| || input[2 + k] != OK;
      assert forall i :: 2 <= i < 2 + k ==> input[i] == input[2..][i - 2];
    }
  }

  /** An upload that succeeds has sent everything. */
  lemma SuccessSendsAll(firmware: seq<Byte>, md5: seq<Byte>, input: seq<Byte>)
    requires Succeeds(firmware, input)
    ensures Sent(firmware, md5, input) == Stream(firmware, md5)
  {
    hide BigEndian;
    SucceedsInStages(firmware, input);
    WholeSent(|firmware|);
    assert firmware[..|firmware|] == firmware;
  }
}
