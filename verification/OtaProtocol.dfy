/**
  The firmware upload as a protocol between the script (scripts/ota_upload.py) and a server that
  behaves as the script documents: it answers the magic byte and the size, acknowledges each
  8192 bytes of firmware short of the end, and answers the hash.

  Each side's bytes travel in order and arrive one at a time, whenever; a schedule says who
  moves. Every interleaving is a schedule.
 */
module OtaProtocol {
  import opened OtaClient
  import opened Sequences

  const HASH := 16

  // ------------------------------------------------------------------ the server

  /** Whether the last byte received is one to answer. The size is read from the bytes themselves. */
  predicate Answers(received: seq<Byte>) {
    || |received| == 1
    || |received| == 5
    || (|received| > 5 &&
        var size, f := ReadBigEndian(received[1..5]), |received| - 5;
        (f % ACK_INTERVAL == 0 && f < size) || f == size + HASH)
  }

  /** How many answers were given. */
  function Answered(received: seq<Byte>): nat {
    if received == [] then 0
    else Answered(received[..|received| - 1]) + if Answers(received) then 1 else 0
  }

  // ------------------------------------------------------------------ the client

  datatype Phase =
    Hello | AwaitFeatures | SendSize | AwaitSize | Sending | AwaitAck | SendHash | AwaitFinal | Done | Failed

  /** `offset` counts firmware bytes sent and `got` responses received; the channels hold what is under way. */
  datatype State = State(
    phase: Phase, offset: nat, got: nat, toServer: seq<Byte>, received: seq<Byte>, toClient: seq<Byte>)

  const START := State(Hello, 0, 0, [], [], [])

  function BlockEnd(size: nat, offset: nat): (r: nat)
    ensures r <= size
    ensures offset < size ==> r > offset
  {
    Min((offset / ACK_INTERVAL + 1) * ACK_INTERVAL, size)
  }

  function ChunkEnd(size: nat, offset: nat): (r: nat)
    ensures r <= BlockEnd(size, offset)
    ensures offset < size ==> r > offset
  {
    Min(offset + CHUNK, BlockEnd(size, offset))
  }

  function AfterChunk(size: nat, offset: nat, end: nat): Phase {
    if end < BlockEnd(size, offset) then Sending
    else if end < size then AwaitAck
    else SendHash
  }

  function Sends(s: State, data: seq<Byte>, phase: Phase): State {
    s.(toServer := s.toServer + data, phase := phase)
  }

  /** Takes a response, if one has arrived; `checked` says whether its code matters. */
  function Takes(s: State, checked: bool, phase: Phase): State {
    if s.toClient == [] then s
    else if checked && s.toClient[0] != OK then s.(phase := Failed)
    else s.(phase := phase, got := s.got + 1, toClient := s.toClient[1..])
  }

  function ClientStep(firmware: seq<Byte>, md5: seq<Byte>, s: State): State
    requires |firmware| < UINT32
  {
    match s.phase
    case Hello => Sends(s, [MAGIC], AwaitFeatures)
    case AwaitFeatures => Takes(s, false, SendSize)
    case SendSize => Sends(s, BigEndian(|firmware|), AwaitSize)
    case AwaitSize => Takes(s, true, if firmware == [] then SendHash else Sending)
    case Sending =>
      if s.offset >= |firmware| then s
      else
        var end := ChunkEnd(|firmware|, s.offset);
        Sends(s, firmware[s.offset..end], AfterChunk(|firmware|, s.offset, end)).(offset := end)
    case AwaitAck => Takes(s, true, Sending)
    case SendHash => Sends(s, md5, AwaitFinal)
    case AwaitFinal => Takes(s, true, Done)
    case Done => s
    case Failed => s
  }

  /** The server takes a byte; `codes` gives its answers. */
  function ServerStep(codes: nat -> Byte, s: State): State {
    if s.toServer == [] then s
    else
      var received := s.received + [s.toServer[0]];
      s.(toServer := s.toServer[1..], received := received,
         toClient := s.toClient + if Answers(received) then [codes(Answered(s.received))] else [])
  }

  datatype Move = Client | Server

  function Step(firmware: seq<Byte>, md5: seq<Byte>, codes: nat -> Byte, s: State, m: Move): State
    requires |firmware| < UINT32
  {
    match m
    case Client => ClientStep(firmware, md5, s)
    case Server => ServerStep(codes, s)
  }

  function Run(firmware: seq<Byte>, md5: seq<Byte>, codes: nat -> Byte, schedule: seq<Move>): State
    requires |firmware| < UINT32
  {
    if schedule == [] then START
    else Step(firmware, md5, codes, Run(firmware, md5, codes, schedule[..|schedule| - 1]), schedule[|schedule| - 1])
  }

  // ------------------------------------------------------------------ how many answers are due

  /** Acknowledgements due for the first `f` bytes of a firmware. */
  function Due(size: nat, f: nat): nat {
    Min(f / ACK_INTERVAL, Boundaries(size))
  }

  /** Answers due for the first `c` bytes of an upload. */
  function AnswersDue(size: nat, c: nat): nat {
    (if c >= 1 then 1 else 0)
    + (if c >= 5 then 1 + Due(size, c - 5) else 0)
    + (if c >= 5 + size + HASH then 1 else 0)
  }

  lemma DueNext(size: nat, f: nat)
    ensures Due(size, f + 1) == Due(size, f) + if (f + 1) % ACK_INTERVAL == 0 && f + 1 < size then 1 else 0
  {
    var q := f / ACK_INTERVAL;
    assert (f + 1) / ACK_INTERVAL == if (f + 1) % ACK_INTERVAL == 0 then q + 1 else q;
  }

  lemma AnswersDueNext(size: nat, c: nat)
    ensures
      AnswersDue(size, c + 1) == AnswersDue(size, c) +
        if c + 1 == 1 || c + 1 == 5
           || (c + 1 > 5 && (((c + 1 - 5) % ACK_INTERVAL == 0 && c + 1 - 5 < size) || c + 1 - 5 == size + HASH))
        then 1 else 0
  {
    if c >= 5 {
      DueNext(size, c - 5);
    }
  }

  /** The server's count, made from the bytes, is the number due. */
  lemma {:induction false} AnsweredIsDue(firmware: seq<Byte>, md5: seq<Byte>, c: nat)
    requires |firmware| < UINT32 && |md5| == HASH && c <= 5 + |firmware| + HASH
    ensures Answered(Stream(firmware, md5)[..c]) == AnswersDue(|firmware|, c)
    decreases c
  {
    var stream := Stream(firmware, md5);
    if c > 0 {
      AnsweredIsDue(firmware, md5, c - 1);
      assert stream[..c][..c - 1] == stream[..c - 1];
      AnswersDueNext(|firmware|, c - 1);
      if c >= 5 {
        assert stream[..c][1..5] == BigEndian(|firmware|);
        BigEndianRoundTrip(|firmware|);
      }
    }
  }

  // ------------------------------------------------------------------ invariants

  /** What has been sent is a prefix of the upload; what has been answered and not yet taken is under way. */
  ghost predicate InOrder(codes: nat -> Byte, stream: seq<Byte>, s: State) {
    var sent := |s.received| + |s.toServer|;
    && sent <= |stream| && s.received + s.toServer == stream[..sent]
    && |s.toClient| == Answered(s.received) - s.got
    && forall i :: 0 <= i < |s.toClient| ==> s.toClient[i] == codes(s.got + i)
  }

  /** Where the client is, how much it has sent and how many responses it has taken. */
  predicate InStep(size: nat, s: State) {
    var sent := |s.received| + |s.toServer|;
    match s.phase
    case Hello => sent == 0 && s.offset == 0 && s.got == 0
    case AwaitFeatures => sent == 1 && s.offset == 0 && s.got == 0
    case SendSize => sent == 1 && s.offset == 0 && s.got == 1
    case AwaitSize => sent == 5 && s.offset == 0 && s.got == 1
    case Sending => sent == 5 + s.offset && s.offset < size && s.got == 2 + s.offset / ACK_INTERVAL
    case AwaitAck =>
      sent == 5 + s.offset && 0 < s.offset < size && s.offset % ACK_INTERVAL == 0 && s.got == 1 + s.offset / ACK_INTERVAL
    case SendHash => sent == 5 + size && s.offset == size && s.got == 2 + Boundaries(size)
    case AwaitFinal => sent == 5 + size + HASH && s.offset == size && s.got == 2 + Boundaries(size)
    case Done => sent == 5 + size + HASH && s.offset == size && s.got == 3 + Boundaries(size)
    case Failed => 0 < s.got <= 2 + Boundaries(size) && sent == GaveUpAt(size, s.got) && s.toClient != [] && s.toClient[0] != OK
                   && s.offset <= size && s.offset <= ACK_INTERVAL * (if s.got < 2 then 1 else s.got - 1)
  }

  /** How much has been sent by the time the response after `got` others is refused. */
  function GaveUpAt(size: nat, got: nat): nat {
    if got < 2 then 5
    else if got < 2 + Boundaries(size) then 5 + (got - 1) * ACK_INTERVAL
    else 5 + size + HASH
  }

  ghost predicate Good(firmware: seq<Byte>, md5: seq<Byte>, codes: nat -> Byte, s: State) {
    && |firmware| < UINT32 && |md5| == HASH
    && InOrder(codes, Stream(firmware, md5), s)
    && InStep(|firmware|, s)
    && TakenAreOk(codes, s)
  }

  /** Every response taken, but for the features byte, was OK. */
  ghost predicate TakenAreOk(codes: nat -> Byte, s: State) {
    forall i :: 0 < i < s.got ==> codes(i) == OK
  }

  lemma SendsInOrder(codes: nat -> Byte, stream: seq<Byte>, s: State, data: seq<Byte>, phase: Phase, offset: nat)
    requires InOrder(codes, stream, s)
    requires
      var sent := |s.received| + |s.toServer|;
      sent + |data| <= |stream| && stream[sent..sent + |data|] == data
    ensures InOrder(codes, stream, Sends(s, data, phase).(offset := offset))
  {
    var sent := |s.received| + |s.toServer|;
    assert s.received + (s.toServer + data) == s.received + s.toServer + data;
    assert stream[..sent] + stream[sent..sent + |data|] == stream[..sent + |data|];
  }

  lemma TakesInOrder(codes: nat -> Byte, stream: seq<Byte>, s: State, checked: bool, phase: Phase)
    requires InOrder(codes, stream, s)
    ensures InOrder(codes, stream, Takes(s, checked, phase))
  {
  }

  /** Where the parts of an upload are. */
  lemma StreamParts(firmware: seq<Byte>, md5: seq<Byte>)
    requires |firmware| < UINT32 && |md5| == HASH
    ensures
      var stream := Stream(firmware, md5);
      && stream[0..1] == [MAGIC]
      && stream[1..5] == BigEndian(|firmware|)
      && stream[5..5 + |firmware|] == firmware
      && stream[5 + |firmware|..] == md5
  {
    hide BigEndian;
  }

  lemma ChunkInStream(firmware: seq<Byte>, md5: seq<Byte>, from: nat, to: nat)
    requires |firmware| < UINT32 && |md5| == HASH && from <= to <= |firmware|
    ensures Stream(firmware, md5)[5 + from..5 + to] == firmware[from..to]
  {
    hide Stream;
    var stream := Stream(firmware, md5);
    StreamParts(firmware, md5);
    SliceOfSlice(stream, 5, 5 + |firmware|, from, to);
  }

  lemma SliceOfSlice<T>(s: seq<T>, start: nat, end: nat, from: nat, to: nat)
    requires start <= end <= |s| && from <= to <= end - start
    ensures s[start..end][from..to] == s[start + from..start + to]
  {
    var a, b := s[start..end][from..to], s[start + from..start + to];
    forall i | 0 <= i < |a| ensures a[i] == b[i] {
      assert s[start..end][from + i] == s[start + (from + i)];
    }
  }

  lemma ClientInOrder(firmware: seq<Byte>, md5: seq<Byte>, codes: nat -> Byte, s: State)
    requires Good(firmware, md5, codes, s)
    ensures InOrder(codes, Stream(firmware, md5), ClientStep(firmware, md5, s))
  {
    hide InOrder, Stream, Takes, BigEndian, BlockEnd, ChunkEnd, AfterChunk;
    var stream := Stream(firmware, md5);
    StreamParts(firmware, md5);
    match s.phase
    case Hello => SendsInOrder(codes, stream, s, [MAGIC], AwaitFeatures, s.offset);
    case AwaitFeatures => TakesInOrder(codes, stream, s, false, SendSize);
    case SendSize => SendsInOrder(codes, stream, s, BigEndian(|firmware|), AwaitSize, s.offset);
    case AwaitSize => TakesInOrder(codes, stream, s, true, if firmware == [] then SendHash else Sending);
    case Sending =>
      var end := ChunkEnd(|firmware|, s.offset);
      ChunkInStream(firmware, md5, s.offset, end);
      SendsInOrder(codes, stream, s, firmware[s.offset..end], AfterChunk(|firmware|, s.offset, end), end);
    case AwaitAck => TakesInOrder(codes, stream, s, true, Sending);
    case SendHash => SendsInOrder(codes, stream, s, md5, AwaitFinal, s.offset);
    case AwaitFinal => TakesInOrder(codes, stream, s, true, Done);
    case Done =>
    case Failed =>
  }

  /** A chunk stays inside its block. */
  lemma ChunkInStep(size: nat, offset: nat)
    requires offset < size
    ensures
      var end := ChunkEnd(size, offset);
      match AfterChunk(size, offset, end)
      case Sending => end < size && end / ACK_INTERVAL == offset / ACK_INTERVAL
      case AwaitAck => end < size && end % ACK_INTERVAL == 0 && end / ACK_INTERVAL == offset / ACK_INTERVAL + 1
      case _ => end == size && Boundaries(size) == offset / ACK_INTERVAL
  {
  }

  lemma ClientInStep(firmware: seq<Byte>, md5: seq<Byte>, codes: nat -> Byte, s: State)
    requires Good(firmware, md5, codes, s)
    ensures InStep(|firmware|, ClientStep(firmware, md5, s))
  {
    hide InOrder, BigEndian, ChunkEnd, BlockEnd;
    if s.phase == Sending {
      ChunkInStep(|firmware|, s.offset);
    }
  }

  lemma ClientTakesOk(firmware: seq<Byte>, md5: seq<Byte>, codes: nat -> Byte, s: State)
    requires Good(firmware, md5, codes, s)
    ensures TakenAreOk(codes, ClientStep(firmware, md5, s))
  {
    hide Stream, BigEndian, ChunkEnd, Answered;
    assert s.toClient != [] ==> s.toClient[0] == codes(s.got);
  }

  /** Taking a byte, the server keeps the order of everything. */
  lemma ServerKeepsGood(firmware: seq<Byte>, md5: seq<Byte>, codes: nat -> Byte, s: State)
    requires Good(firmware, md5, codes, s)
    ensures Good(firmware, md5, codes, ServerStep(codes, s))
  {
    hide Answers, Stream, GaveUpAt, Boundaries;
    if s.toServer != [] {
      var received := s.received + [s.toServer[0]];
      assert received + s.toServer[1..] == s.received + s.toServer;
      assert received[..|received| - 1] == s.received;
    }
  }

  /** In every interleaving the sent bytes are a prefix of the upload and each side is where the counts say. */
  lemma {:induction false} RunIsGood(firmware: seq<Byte>, md5: seq<Byte>, codes: nat -> Byte, schedule: seq<Move>)
    requires |firmware| < UINT32 && |md5| == HASH
    ensures Good(firmware, md5, codes, Run(firmware, md5, codes, schedule))
    decreases |schedule|
  {
    if schedule != [] {
      var earlier, m := schedule[..|schedule| - 1], schedule[|schedule| - 1];
      RunIsGood(firmware, md5, codes, earlier);
      StepKeepsGood(firmware, md5, codes, Run(firmware, md5, codes, earlier), m);
    }
  }

  lemma StepKeepsGood(firmware: seq<Byte>, md5: seq<Byte>, codes: nat -> Byte, s: State, m: Move)
    requires Good(firmware, md5, codes, s)
    ensures Good(firmware, md5, codes, Step(firmware, md5, codes, s, m))
  {
    hide InOrder, InStep, TakenAreOk, ClientStep, ServerStep, Stream;
    match m
    case Client =>
      ClientInOrder(firmware, md5, codes, s);
      ClientInStep(firmware, md5, codes, s);
      ClientTakesOk(firmware, md5, codes, s);
    case Server => ServerKeepsGood(firmware, md5, codes, s);
  }

  // ------------------------------------------------------------------ safety

  /** Acknowledgements taken. */
  function Acks(s: State): nat {
    if s.got < 2 then 0 else s.got - 2
  }

  /** In every interleaving, never more than one block of firmware is unacknowledged. */
  lemma NeverMoreThanABlock(firmware: seq<Byte>, md5: seq<Byte>, codes: nat -> Byte, schedule: seq<Move>)
    requires |firmware| < UINT32 && |md5| == HASH
    ensures
      var s := Run(firmware, md5, codes, schedule);
      s.phase != Done ==> s.offset <= ACK_INTERVAL * (Acks(s) + 1)
  {
    hide InOrder, TakenAreOk;
    RunIsGood(firmware, md5, codes, schedule);
  }

  /** A finished upload delivered everything, and took the acknowledgements of all blocks but the last. */
  lemma DoneIsDelivered(firmware: seq<Byte>, md5: seq<Byte>, codes: nat -> Byte, s: State)
    requires Good(firmware, md5, codes, s) && s.phase == Done
    ensures s.received == Stream(firmware, md5) && s.toServer == [] && s.toClient == []
    ensures s.received[5..5 + |firmware|] == firmware
    ensures s.got == 1 + 1 + Boundaries(|firmware|) + 1
  {
    hide Stream;
    ReceivedIsPrefix(codes, Stream(firmware, md5), s);
    AnsweredIsDue(firmware, md5, |s.received|);
    StreamParts(firmware, md5);
  }

  lemma ReceivedIsPrefix(codes: nat -> Byte, stream: seq<Byte>, s: State)
    requires InOrder(codes, stream, s)
    ensures |s.received| <= |stream| && s.received == stream[..|s.received|]
    ensures s.toServer == [] ==> s.received == stream[..|s.received| + |s.toServer|]
  {
    var sent := |s.received| + |s.toServer|;
    assert (s.received + s.toServer)[..|s.received|] == s.received;
    assert stream[..sent][..|s.received|] == stream[..|s.received|];
  }

  // ------------------------------------------------------------------ progress

  predicate Finished(s: State) {
    s.phase == Done || s.phase == Failed
  }

  /** A client that waits has an answer under way or due. */
  lemma NoDeadlock(firmware: seq<Byte>, md5: seq<Byte>, codes: nat -> Byte, s: State)
    requires Good(firmware, md5, codes, s) && !Finished(s)
    ensures ClientStep(firmware, md5, s) != s || ServerStep(codes, s) != s
  {
    var stream := Stream(firmware, md5);
    hide Stream, BigEndian, Answers, ChunkEnd;
    if s.toServer == [] && s.toClient == [] {
      ReceivedIsPrefix(codes, stream, s);
      AnsweredIsDue(firmware, md5, |s.received|);
      WaitsForWhatIsDue(|firmware|, s);
    }
  }

  predicate Waits(s: State) {
    s.phase in {AwaitFeatures, AwaitSize, AwaitAck, AwaitFinal}
  }

  lemma WaitsForWhatIsDue(size: nat, s: State)
    requires InStep(size, s)
    ensures Waits(s) ==> AnswersDue(size, |s.received| + |s.toServer|) > s.got
  {
  }

  /** What is left to do. */
  function Remaining(size: nat, s: State): int {
    4 * (5 + size + HASH - |s.received| - |s.toServer|) + 2 * |s.toServer| + |s.toClient| + if Finished(s) then 0 else 1
  }

  lemma ServerMakesProgress(size: nat, codes: nat -> Byte, s: State)
    ensures ServerStep(codes, s) == s || Remaining(size, ServerStep(codes, s)) < Remaining(size, s)
  {
    hide Answers;
  }

  lemma SendingMakesProgress(size: nat, s: State, data: seq<Byte>, phase: Phase, offset: nat)
    requires data != [] && !Finished(s)
    ensures Remaining(size, Sends(s, data, phase).(offset := offset)) < Remaining(size, s)
  {
  }

  lemma TakingMakesProgress(size: nat, s: State, checked: bool, phase: Phase)
    requires !Finished(s)
    ensures Takes(s, checked, phase) == s || Remaining(size, Takes(s, checked, phase)) < Remaining(size, s)
  {
  }

  lemma ClientMakesProgress(firmware: seq<Byte>, md5: seq<Byte>, codes: nat -> Byte, s: State)
    requires Good(firmware, md5, codes, s)
    ensures
      var t := ClientStep(firmware, md5, s);
      t == s || Remaining(|firmware|, t) < Remaining(|firmware|, s)
  {
    var size := |firmware|;
    hide InOrder, Stream, Takes, Remaining, AfterChunk, ChunkEnd, BigEndian;
    match s.phase
    case Hello => SendingMakesProgress(size, s, [MAGIC], AwaitFeatures, s.offset);
    case AwaitFeatures => TakingMakesProgress(size, s, false, SendSize);
    case SendSize =>
      assert |BigEndian(size)| == 4;
      SendingMakesProgress(size, s, BigEndian(size), AwaitSize, s.offset);
    case AwaitSize => TakingMakesProgress(size, s, true, if firmware == [] then SendHash else Sending);
    case Sending =>
      var end := ChunkEnd(size, s.offset);
      SendingMakesProgress(size, s, firmware[s.offset..end], AfterChunk(size, s.offset, end), end);
    case AwaitAck => TakingMakesProgress(size, s, true, Sending);
    case SendHash => SendingMakesProgress(size, s, md5, AwaitFinal, s.offset);
    case AwaitFinal => TakingMakesProgress(size, s, true, Done);
    case Done =>
    case Failed =>
  }

  /** Every move that changes anything leaves less to do. */
  lemma MovesMakeProgress(firmware: seq<Byte>, md5: seq<Byte>, codes: nat -> Byte, s: State, m: Move)
    requires Good(firmware, md5, codes, s)
    ensures
      var t := Step(firmware, md5, codes, s, m);
      t == s || 0 <= Remaining(|firmware|, t) < Remaining(|firmware|, s)
  {
    hide Remaining, ClientStep, ServerStep;
    StepKeepsGood(firmware, md5, codes, s, m);
    NothingOwed(firmware, md5, codes, Step(firmware, md5, codes, s, m));
    ServerMakesProgress(|firmware|, codes, s);
    ClientMakesProgress(firmware, md5, codes, s);
  }

  lemma NothingOwed(firmware: seq<Byte>, md5: seq<Byte>, codes: nat -> Byte, s: State)
    requires Good(firmware, md5, codes, s)
    ensures Remaining(|firmware|, s) >= 0
  {
  }

  /** A schedule from any state on. */
  function RunFrom(firmware: seq<Byte>, md5: seq<Byte>, codes: nat -> Byte, s: State, schedule: seq<Move>): State
    requires |firmware| < UINT32
    decreases |schedule|
  {
    if schedule == [] then s
    else RunFrom(firmware, md5, codes, Step(firmware, md5, codes, s, schedule[0]), schedule[1..])
  }

  lemma {:induction false} RunAppend(firmware: seq<Byte>, md5: seq<Byte>, codes: nat -> Byte, a: seq<Move>, b: seq<Move>)
    requires |firmware| < UINT32
    ensures Run(firmware, md5, codes, a + b) == RunFrom(firmware, md5, codes, Run(firmware, md5, codes, a), b)
    decreases |b|
  {
    if b == [] {
      assert a + b == a;
    } else {
      assert (a + [b[0]])[..|a|] == a && a + b == a + [b[0]] + b[1..];
      hide Step;
      RunAppend(firmware, md5, codes, a + [b[0]], b[1..]);
    }
  }

  /** Some moves leave less to do, or each of them changes nothing. */
  lemma {:induction false} MovesFrom(firmware: seq<Byte>, md5: seq<Byte>, codes: nat -> Byte, s: State, moves: seq<Move>)
    requires Good(firmware, md5, codes, s)
    ensures |firmware| < UINT32
    ensures
      var t := RunFrom(firmware, md5, codes, s, moves);
      && Good(firmware, md5, codes, t)
      && (Remaining(|firmware|, t) < Remaining(|firmware|, s)
          || (t == s && forall m :: m in moves ==> Step(firmware, md5, codes, s, m) == s))
    decreases |moves|
  {
    GoodSizes(firmware, md5, codes, s);
    if moves != [] {
      hide Good, Remaining, Step;
      StepKeepsGood(firmware, md5, codes, s, moves[0]);
      MovesMakeProgress(firmware, md5, codes, s, moves[0]);
      MovesFrom(firmware, md5, codes, Step(firmware, md5, codes, s, moves[0]), moves[1..]);
    }
  }

  /** A stretch of a schedule in which both sides move. */
  predicate IsWindow(moves: seq<Move>) {
    Client in moves && Server in moves
  }

  /** Before the end, a window leaves less to do. */
  lemma WindowMakesProgress(firmware: seq<Byte>, md5: seq<Byte>, codes: nat -> Byte, s: State, moves: seq<Move>)
    requires Good(firmware, md5, codes, s) && !Finished(s) && IsWindow(moves)
    ensures |firmware| < UINT32
    ensures Remaining(|firmware|, RunFrom(firmware, md5, codes, s, moves)) < Remaining(|firmware|, s)
  {
    MovesFrom(firmware, md5, codes, s, moves);
    NoDeadlock(firmware, md5, codes, s);
    hide Good, Remaining, ClientStep, ServerStep, RunFrom;
    assert Step(firmware, md5, codes, s, Client) == ClientStep(firmware, md5, s);
    assert Step(firmware, md5, codes, s, Server) == ServerStep(codes, s);
  }

  lemma {:induction false} FinishedStays(firmware: seq<Byte>, md5: seq<Byte>, codes: nat -> Byte, s: State, moves: seq<Move>)
    requires |firmware| < UINT32 && Finished(s)
    ensures Finished(RunFrom(firmware, md5, codes, s, moves))
    decreases |moves|
  {
    if moves != [] {
      FinishedStays(firmware, md5, codes, Step(firmware, md5, codes, s, moves[0]), moves[1..]);
    }
  }

  lemma {:induction false} RunFromAppend(firmware: seq<Byte>, md5: seq<Byte>, codes: nat -> Byte, s: State, a: seq<Move>, b: seq<Move>)
    requires |firmware| < UINT32
    ensures
      RunFrom(firmware, md5, codes, s, a + b) == RunFrom(firmware, md5, codes, RunFrom(firmware, md5, codes, s, a), b)
    decreases |a|
  {
    if a == [] {
      assert a + b == b;
    } else {
      assert (a + b)[1..] == a[1..] + b;
      hide Step;
      RunFromAppend(firmware, md5, codes, Step(firmware, md5, codes, s, a[0]), a[1..], b);
    }
  }

  /** Enough windows finish the upload from any state that can be reached. */
  lemma {:induction false} WindowsFinish(firmware: seq<Byte>, md5: seq<Byte>, codes: nat -> Byte, s: State, windows: seq<seq<Move>>)
    requires Good(firmware, md5, codes, s) && |windows| >= Remaining(|firmware|, s)
    requires forall w :: w in windows ==> IsWindow(w)
    ensures |firmware| < UINT32
    ensures Finished(RunFrom(firmware, md5, codes, s, Flatten(windows)))
    decreases |windows|
  {
    GoodSizes(firmware, md5, codes, s);
    if Finished(s) {
      FinishedStays(firmware, md5, codes, s, Flatten(windows));
    } else if windows == [] {
      NothingOwed(firmware, md5, codes, s);
      NoDebtIsFinished(firmware, s);
    } else {
      var t := RunFrom(firmware, md5, codes, s, windows[0]);
      WindowMakesProgress(firmware, md5, codes, s, windows[0]);
      MovesFrom(firmware, md5, codes, s, windows[0]);
      RunFromAppend(firmware, md5, codes, s, windows[0], Flatten(windows[1..]));
      hide Good, Remaining, Step, RunFrom, Finished;
      WindowsFinish(firmware, md5, codes, t, windows[1..]);
    }
  }

  /** Every schedule that lets both sides move often enough finishes the upload, whatever follows. */
  lemma FairSchedulesFinish(firmware: seq<Byte>, md5: seq<Byte>, codes: nat -> Byte, windows: seq<seq<Move>>, rest: seq<Move>)
    requires |firmware| < UINT32 && |md5| == HASH
    requires |windows| >= Remaining(|firmware|, START) && forall w :: w in windows ==> IsWindow(w)
    ensures Finished(Run(firmware, md5, codes, Flatten(windows) + rest))
  {
    var fair := Flatten(windows);
    StartIsGood(firmware, md5, codes);
    WindowsFinish(firmware, md5, codes, START, windows);
    RunAppend(firmware, md5, codes, [], fair);
    RunAppend(firmware, md5, codes, fair, rest);
    hide RunFrom, Finished, Remaining;
    assert [] + fair == fair;
    FinishedStays(firmware, md5, codes, Run(firmware, md5, codes, fair), rest);
  }

  /**
   * Whatever the schedule, an upload that has ended ended well, everything delivered,
   * exactly when the server answered OK every time.
   */
  lemma EndsWellExactly(firmware: seq<Byte>, md5: seq<Byte>, codes: nat -> Byte, schedule: seq<Move>)
    requires |firmware| < UINT32 && |md5| == HASH && Finished(Run(firmware, md5, codes, schedule))
    ensures
      var s := Run(firmware, md5, codes, schedule);
      && (s.phase == Done <==> forall i :: 1 <= i <= 2 + Boundaries(|firmware|) ==> codes(i) == OK)
      && (s.phase == Done ==> s.received == Stream(firmware, md5))
      && (s.phase != Done ==> s.phase == Failed && codes(s.got) != OK)
  {
    var s := Run(firmware, md5, codes, schedule);
    RunIsGood(firmware, md5, codes, schedule);
    if s.phase == Done {
      DoneIsDelivered(firmware, md5, codes, s);
    } else {
      assert s.toClient[0] == codes(s.got);
    }
  }

  lemma StartIsGood(firmware: seq<Byte>, md5: seq<Byte>, codes: nat -> Byte)
    requires |firmware| < UINT32 && |md5| == HASH
    ensures Good(firmware, md5, codes, START)
  {
  }

  lemma GoodSizes(firmware: seq<Byte>, md5: seq<Byte>, codes: nat -> Byte, s: State)
    requires Good(firmware, md5, codes, s)
    ensures |firmware| < UINT32 && |s.received| + |s.toServer| <= 5 + |firmware| + HASH
  {
  }

  lemma NoDebtIsFinished(firmware: seq<Byte>, s: State)
    requires |s.received| + |s.toServer| <= 5 + |firmware| + HASH && Remaining(|firmware|, s) <= 0
    ensures Finished(s)
  {
  }

  // ------------------------------------------------------------------ the protocol's client is the script

  /** The responses a client has seen by the end, a refused one included. */
  function Responses(codes: nat -> Byte, s: State): (r: seq<Byte>)
    ensures |r| == if s.phase == Failed then s.got + 1 else s.got
    ensures forall i :: 0 <= i < |r| ==> r[i] == codes(i)
  {
    seq(if s.phase == Failed then s.got + 1 else s.got, i requires 0 <= i => codes(i))
  }

  lemma StreamPrefix(firmware: seq<Byte>, md5: seq<Byte>, k: nat)
    requires |firmware| < UINT32 && k <= |firmware|
    ensures Stream(firmware, md5)[..5 + k] == Greeting(|firmware|) + firmware[..k]
  {
    hide BigEndian;
    assert |Greeting(|firmware|)| == 5;
  }

  /** The acknowledgements up to the first that is refused. */
  lemma AcceptedUpTo(responses: seq<Byte>, k: nat, limit: nat)
    requires k <= limit && k < |responses| && responses[k] != OK && forall i :: 0 <= i < k ==> responses[i] == OK
    ensures Accepted(responses, limit) == k
  {
    var n := Accepted(responses, limit);
    assert forall i :: 0 <= i < n ==> responses[i] == OK;
  }

  lemma GaveUpAfter(size: nat, got: nat)
    requires 2 <= got < 2 + Boundaries(size)
    ensures GaveUpAt(size, got) == 5 + SentAfter(size, got - 2) && SentAfter(size, got - 2) <= size
  {
  }

  lemma FailedSent(firmware: seq<Byte>, md5: seq<Byte>, codes: nat -> Byte, s: State)
    requires Good(firmware, md5, codes, s) && s.phase == Failed
    ensures s.received + s.toServer == Sent(firmware, md5, Responses(codes, s))
    ensures !Succeeds(firmware, Responses(codes, s))
  {
    var responses, size := Responses(codes, s), |firmware|;
    assert responses[s.got] != OK by { assert s.toClient[0] == codes(s.got); }
    assert s.received + s.toServer == Stream(firmware, md5)[..GaveUpAt(size, s.got)];
    hide InOrder, BigEndian, Accepted, SentAfter, Greeting, Stream;
    if s.got < 2 {
      StreamPrefix(firmware, md5, 0);
      assert Greeting(size) + firmware[..0] == Greeting(size);
    } else {
      assert forall i :: 0 <= i < s.got - 2 ==> responses[2..][i] == codes(i + 2);
      AcceptedUpTo(responses[2..], s.got - 2, Boundaries(size));
      if s.got < 2 + Boundaries(size) {
        GaveUpAfter(size, s.got);
        StreamPrefix(firmware, md5, SentAfter(size, s.got - 2));
      } else {
        WholeSent(size);
        WholeStream(firmware, md5);
      }
    }
  }

  lemma WholeStream(firmware: seq<Byte>, md5: seq<Byte>)
    requires |firmware| < UINT32
    ensures Stream(firmware, md5) == Greeting(|firmware|) + firmware[..|firmware|] + md5
    ensures Stream(firmware, md5)[..5 + |firmware| + |md5|] == Stream(firmware, md5)
  {
    assert firmware[..|firmware|] == firmware;
  }

  /**
   * In every finished run the bytes sent are those the script sends when it gets the same
   * responses, and the outcome is the script's.
   */
  lemma SendsWhatTheScriptSends(firmware: seq<Byte>, md5: seq<Byte>, codes: nat -> Byte, schedule: seq<Move>)
    requires |firmware| < UINT32 && |md5| == HASH && Finished(Run(firmware, md5, codes, schedule))
    ensures
      var s := Run(firmware, md5, codes, schedule);
      && s.received + s.toServer == Sent(firmware, md5, Responses(codes, s))
      && (s.phase == Done <==> Succeeds(firmware, Responses(codes, s)))
  {
    var s := Run(firmware, md5, codes, schedule);
    RunIsGood(firmware, md5, codes, schedule);
    if s.phase == Failed {
      FailedSent(firmware, md5, codes, s);
    } else {
      DoneIsDelivered(firmware, md5, codes, s);
      assert s.received + s.toServer == s.received;
      SuccessSendsAll(firmware, md5, Responses(codes, s));
    }
  }
}
