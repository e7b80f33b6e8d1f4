/**
 The client's model (client/clientmodel.cpp): it records the iterators it has open and closes them when it
 is destroyed.  The calls that open no iterator only forward to the connection.
 */
module ClientModels {
  import opened Bytes
  import opened Rdf
  import opened BindingSets
  import opened Codec
  import opened Protocol
  import opened ModelPools
  import opened Server
  import opened ServerConnections
  import opened ClientConnections
  import opened Sessions

  class ClientModel {
    const modelId: uint32
    const client: Connection
    var openIterators: seq<uint32>
    var lastError: Error

    constructor (modelId: uint32, client: Connection)
      ensures this.modelId == modelId && this.client == client && openIterators == [] && lastError == NO_ERROR
    {
      this.modelId, this.client := modelId, client;
      openIterators, lastError := [], NO_ERROR;
    }

    // The objects a call on the connection works on.
    ghost function Footprint(): set<object> {
      {client.client, client.client.stream, client.server, client.server.stream, client.server.modelPool}
    }

    ghost function Remote(): ServerState
      reads client.server, client.server.modelPool
    {
      client.server.State()
    }

    /** listStatements, listContexts, executeQuery: the iterator is recorded even if the reply carries an error. */
    method OpenIterator(req: Request, ans: Answer) returns (valid: bool, itId: uint32)
      requires TableOf(req).Some? && req.model == modelId
      requires client.Idle() && ValidRequest(req) && Plausible(Remote(), ans) && !Strands(Remote(), req)
      modifies this, Footprint()
      ensures client.Idle()
      ensures var req' := NormalRequest(client.server.stream.lex, req);
              var (sv, reply) := Perform(old(Remote()), req', ans);
              && Remote() == sv && reply.Reply? && reply.body == Word(itId)
              && openIterators == Recorded(old(openIterators), req', reply)
              && lastError == Remembered(NormalError(reply.error)) && (valid <==> lastError.code == 0)
    {
      hide Perform, Strands, CanDraw, ValidAnswer, Coherent, Distinct, ValidRequest, NormalStatement, NormalError;
      ghost var lex, sv := client.server.stream.lex, Remote();
      PerformReplies(sv, NormalRequest(lex, req), ans);
      NormalKeepsShape(lex, req);
      var reply := client.Call(req, ans);
      itId := reply.body.word;
      if 0 < itId < 0x8000_0000 { openIterators := openIterators + [itId]; }
      lastError := Remembered(client.client.lastError);
      valid := lastError.code == 0;
    }

    method RemoveAll(id: uint32)
      modifies this`openIterators
      ensures openIterators == Without(old(openIterators), id)
    {
      var kept := [];
      for i := 0 to |openIterators|
        invariant kept + Without(openIterators[i..], id) == Without(old(openIterators), id)
        invariant openIterators == old(openIterators)
      {
        assert openIterators[i..][1..] == openIterators[i + 1..];
        if openIterators[i] != id { kept := kept + [openIterators[i]]; }
      }
      openIterators := kept;
    }

    /** Only an iterator that the model has open is closed. */
    method CloseIterator(id: uint32, ans: Answer)
      requires client.Idle() && Plausible(Remote(), ans)
      modifies this, Footprint()
      ensures client.Idle()
      ensures id in old(openIterators) ==>
                var (sv, reply) := Perform(old(Remote()), IteratorClose(id), ans);
                && Remote() == sv && openIterators == Without(old(openIterators), id)
                && reply.Reply? && lastError == Remembered(NormalError(reply.error))
      ensures id !in old(openIterators) ==>
                Remote() == old(Remote()) && openIterators == old(openIterators) && lastError == NO_ERROR
    {
      hide Perform, CanDraw, ValidAnswer, Coherent, Distinct, NormalError;
      ghost var sv := Remote();
      PerformReplies(sv, IteratorClose(id), ans);
      lastError := NO_ERROR;
      if id in openIterators {
        var reply := client.Call(IteratorClose(id), ans);
        RemoveAll(id);
        lastError := Remembered(client.client.lastError);
      }
    }

    /** The destructor, on a connection that is still open: everything in the list is closed, and nothing else. */
    method Destroy(answers: seq<Answer>)
      requires client.Idle() && |answers| == |openIterators|
      requires forall i | 0 <= i < |answers| :: Plausible(Remote(), answers[i])
      modifies Footprint()
      ensures client.Idle()
      ensures Remote() == AfterClosing(old(Remote()), openIterators)
      ensures Remote().tables == CloseAll(old(Remote()).tables, openIterators)
    {
      hide Perform, CanDraw, ValidAnswer, Coherent, Distinct, NormalReply, Closed, Asked, CloseAll;
      ghost var start := Remote();
      for i := 0 to |openIterators|
        invariant client.Idle()
        invariant Remote() == AfterClosing(start, openIterators[..i])
      {
        assert openIterators[..i + 1][..i] == openIterators[..i];
        DrawsStay(start, openIterators[..i], answers[i]);
        CloseIsClosed(Remote(), openIterators[i], answers[i]);
        var reply := client.Call(IteratorClose(openIterators[i]), answers[i]);
      }
      assert openIterators[..|openIterators|] == openIterators;
    }
  }

  // Closing iterators takes no id, so that fresh random numbers stay fresh.
  lemma {:induction false} DrawsStay(sv: ServerState, ids: seq<uint32>, ans: Answer)
    requires CanDraw(sv, ans)
    ensures CanDraw(AfterClosing(sv, ids), ans)
    ensures OpenIds(CloseAll(sv.tables, ids)) <= OpenIds(sv.tables)
    decreases |ids|
  {
    if ids != [] {
      DrawsStay(sv, ids[..|ids| - 1], ans);
      assert OpenIds(CloseAll(sv.tables, ids)) <= OpenIds(sv.tables);
      var d :| d in ans.iteratorDraws && d !in OpenIds(sv.tables);
      assert d !in OpenIds(CloseAll(sv.tables, ids));
    }
  }
}
