/** The lobby server's jobs: create the content table in a fresh builder, finish on it, copy the bytes out. */
module LobbyServerProtocol {
  import opened Wrappers
  import opened Bytes
  import opened BuilderModel
  import opened BuilderRuns
  import opened TableRoundTrip
  import opened ServerProtocol
  import opened FlatBufferBuilders
  import opened BuilderPrograms

  const INITIAL_SIZE := 1024
  const LARGEST_SCALAR := 8

  datatype JobOutput = JobOutput(buffer: seq<byte>, bodySize: int, contentsType: nat)

  lemma ContentFitsScratch(c: Content)
    ensures forall i :: 0 <= i < |ContentOps(c)| ==> FitsScratch(|ContentOps(c)|, ContentOps(c)[i])
  {
  }

  /** What Execute does after the fields are known. */
  method SendContent(c: Content) returns (output: JobOutput)
    requires ContentOk(c) && KeyLength(c) + 119 < MAX_BUFFER_SIZE
    ensures output.bodySize == |output.buffer| && output.contentsType == TypeOf(c)
    ensures ContentArrives(output.buffer, c, None, false)
  {
    hide ContentOps, ContentArrives, Finish, Steps, Start, ContentOk, KeyLength, TypeOf, FitsScratch;
    hide FlatBufferBuilder.Valid, Finishable, Finished;
    var b := new FlatBufferBuilder(INITIAL_SIZE, LARGEST_SCALAR);
    ContentFitsScratch(c);
    ContentRoundTrip(c, true, None, false);
    FreshStart();
    var ops := ContentOps(c);
    var buffer := BuildBuffer(b, ops, |ops| - 1, None, false);
    output := JobOutput(buffer, |buffer|, TypeOf(c));
  }

  lemma FreshStart()
    ensures Start(true).state == Empty && Empty.dedup
  {
  }

  /** JOB_NOTICE_LOBBYREADY::Execute. */
  method NoticeLobbyReadyJob(key: seq<byte>, port: int, capacity: int, active: bool) returns (output: JobOutput)
    requires Int32(port) && Int32(capacity) && |key| + 119 < MAX_BUFFER_SIZE
    ensures output.bodySize == |output.buffer| && output.contentsType == NOTICE_LOBBYREADY
    ensures ContentArrives(output.buffer, NoticeLobbyReady(Some(key), port, capacity, active), None, false)
  {
    output := SendContent(NoticeLobbyReady(Some(key), port, capacity, active));
  }

  /** JOB_NOTICE_LOBBYINFO::Execute. */
  method NoticeLobbyInfoJob(key: seq<byte>, current: int, remain: int, active: bool) returns (output: JobOutput)
    requires Int32(current) && Int32(remain) && |key| + 119 < MAX_BUFFER_SIZE
    ensures output.bodySize == |output.buffer| && output.contentsType == NOTICE_LOBBYINFO
    ensures ContentArrives(output.buffer, NoticeLobbyInfo(Some(key), current, remain, active), None, false)
  {
    output := SendContent(NoticeLobbyInfo(Some(key), current, remain, active));
  }
}
