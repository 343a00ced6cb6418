/** A finished stream under replay: its events leave no trace, whatever other events come in between. */
module FinishedStream {
  import opened Text
  import opened MessageFilter
  import opened RunSlice
  import opened RunSliceReplay
  import opened DeltaTheorems
  import opened OpenMessage
  import Invariant = RunSliceInvariant

  /** A replayed event of the stream: one of its deltas, or its completed event. */
  predicate OwnReplay(e: Event, src: Source) { e.wf == src.wf && e.agent == src.agent && OfStream(e.body, src.key) }

  function WithoutReplays(es: seq<Event>, src: Source): seq<Event> {
    if es == [] then []
    else (if OwnReplay(es[0], src) then [] else [es[0]]) + WithoutReplays(es[1..], src)
  }

  /** The source's message is m, closed, and the workflow has no open one. */
  ghost predicate Finished(ms: seq<Message>, src: Source, m: Message) {
    Invariant.WellFormed(ms) && m in ms && ClosedOwn(m, src) && LastStreaming(ms, src.wf) < 0
  }

  // ---------------------------------------------------------------- one event

  /** A replayed event changes nothing at all. */
  lemma ReplayStep(s: RunState, e: Event, src: Source, m: Message)
    requires Finished(s.messages, src, m) && src.Direct() && src.agent != "final_output"
    requires OwnReplay(e, src) && s.status != Idle
    ensures Reduce(s, e) == s
  {
    assert WithId(src.Id()).Matches(m) && Has(s.messages, WithId(src.Id()));
    ReducedMessages(s, e);
    OwnMessagesStay(s.messages, e, src);
    OtherFieldsStay(s, e, src);
  }

  lemma OwnMessagesStay(ms: seq<Message>, e: Event, src: Source)
    requires LastStreaming(ms, src.wf) < 0 && Has(ms, WithId(src.Id()))
    requires src.Direct() && src.agent != "final_output" && OwnReplay(e, src)
    ensures ContentMessages(ms, e) == ms
  {
  }

  lemma OtherFieldsStay(s: RunState, e: Event, src: Source)
    requires src.Direct() && OwnReplay(e, src) && s.status != Idle
    ensures StatusMessages(s, e) == s.messages && NextStatus(s, e) == s.status
    ensures NextTitle(s.sessionTitle, e) == s.sessionTitle && ReduceSwarm(s, e.agent, e.body) == s
  {
  }

  /** A foreign event leaves the closed message where it is. */
  lemma ForeignKeepsFinished(s: RunState, e: Event, src: Source, m: Message)
    requires Finished(s.messages, src, m) && Foreign(e, src)
    ensures Finished(Reduce(s, e).messages, src, m)
  {
    ReducedMessages(s, e);
    if !e.historical {
      var after := Reduce(s, e).messages;
      NothingOpen(s.messages, src);
      ForeignSpares(s, e, src);
      forall k | 0 <= k < |after| ensures !after[k].StreamingFor(src.wf) {
        assert after[k] in after && forall x <- s.messages :: !x.StreamingFor(src.wf);
      }
    }
  }

  lemma NothingOpen(ms: seq<Message>, src: Source)
    requires LastStreaming(ms, src.wf) < 0
    ensures OpenIsOwn(ms, src) && forall x <- ms :: !x.StreamingFor(src.wf)
  {
  }

  lemma NeverIdleAgain(s: RunState, e: Event)
    requires s.status != Idle
    ensures Reduce(s, e).status != Idle
  {
  }

  // ---------------------------------------------------------------- whole replays

  /** Replayed events of a finished stream are invisible among other events: the whole state is the one
      that the other events alone lead to. */
  lemma {:induction false} ReplaysAreInvisible(s: RunState, src: Source, m: Message, es: seq<Event>)
    requires Finished(s.messages, src, m) && src.Direct() && src.agent != "final_output" && s.status != Idle
    requires forall e <- es :: OwnReplay(e, src) || Foreign(e, src)
    ensures ReduceAll(s, es) == ReduceAll(s, WithoutReplays(es, src))
    ensures Finished(ReduceAll(s, es).messages, src, m)
    decreases es
  {
    if es != [] {
      var e, rest := es[0], es[1..];
      assert e in es && forall x <- rest :: x in es;
      if OwnReplay(e, src) {
        ReplayStep(s, e, src, m);
        ReplaysAreInvisible(s, src, m, rest);
        assert [] + WithoutReplays(rest, src) == WithoutReplays(rest, src);
      } else {
        ForeignKeepsFinished(s, e, src, m);
        NeverIdleAgain(s, e);
        ReplaysAreInvisible(Reduce(s, e), src, m, rest);
        assert ([e] + WithoutReplays(rest, src))[1..] == WithoutReplays(rest, src);
      }
    }
  }

  /** The completed event of the stream, with a response that is not diagnostic. */
  predicate Completes(e: Event, src: Source) {
    && OwnReplay(e, src) && e.body.Completed? && !e.historical && !IsDiagnosticMessage(e.body.response)
    && (src.unmarked ==> !Marked(e.body.metadata))
  }

  /** It closes the open message. */
  lemma CompletionFinishes(s: RunState, e: Event, src: Source, c: Core) returns (m: Message)
    requires Shows(s.messages, src, Some(c)) && src.Direct() && src.agent != "final_output" && Completes(e, src)
    ensures Finished(Reduce(s, e).messages, src, m) && Reduce(s, e).status != Idle
    ensures m.content == if e.body.response != "" then e.body.response else c.content
  {
    var ms := s.messages;
    var i := LastStreaming(ms, src.wf);
    m := RunSlice.Finished(ms[i], e.body);
    ReducedMessages(s, e);
    assert Invariant.Shaped(ms[i]);
    Invariant.CompletedKeeps(ms, src.wf, src.agent, e.body);
    Invariant.OneStream(ms, src.wf);
    var after := ms[i := m];
    assert after[i] in after;
    forall k | 0 <= k < |after| ensures !after[k].StreamingFor(src.wf) {
      if k != i { assert after[k] == ms[k]; }
    }
  }

  /** Once its stream is completed, any replay of its deltas and of its completed event, in any order and
      mixed with any foreign events, is absorbed by the whole reducer. */
  lemma FinishedStreamAbsorbsReplayAmongOthers(s: RunState, done: Event, src: Source, c: Core, es: seq<Event>)
    requires Shows(s.messages, src, Some(c)) && src.Direct() && src.agent != "final_output" && Completes(done, src)
    requires forall e <- es :: OwnReplay(e, src) || Foreign(e, src)
    ensures ReduceAll(Reduce(s, done), es) == ReduceAll(Reduce(s, done), WithoutReplays(es, src))
  {
    var m := CompletionFinishes(s, done, src, c);
    ReplaysAreInvisible(Reduce(s, done), src, m, es);
  }

  // ---------------------------------------------------------------- the final answer's own stream

  /** The completed final answer removes the message of its stream instead of closing it, so a replayed
      delta of a final_output stream opens a second message beside the answer. */
  lemma FinalAnswerForgetsItsStream(ms: seq<Message>, src: Source, c: Core, done: EventBody, e: Entry)
    requires Shows(ms, src, Some(c)) && src.key != "" && src.agent == "final_output"
    requires done.Completed? && Shown(e) && (src.unmarked ==> !Marked(e.metadata))
    requires var text := if done.response != "" then done.response else done.content;
             text != "" && !IsDiagnosticMessage(text) && !IsStatusMessage(text)
    ensures var after := ApplyFinalCompleted(ms, src.wf, done);
            && Shows(after, src, None)
            && Shows(ApplyDelta(after, src.wf, src.agent, DeltaOf(src.key, e)), src,
                     Some(First(e)))
  {
    FinalAnswerRemovesOpen(ms, src, c, done);
    FirstDelivered(e);
    DeltaStep(ApplyFinalCompleted(ms, src.wf, done), src, None, [e.part], e.metadata, 0);
  }

  /** The message a single delta makes. */
  function First(e: Entry): Core {
    Core(e.part.text, e.metadata, if e.part.seqNo.Some? then [e.part.seqNo.value] else [])
  }

  lemma FirstDelivered(e: Entry)
    requires Shown(e)
    ensures Deliver(None, Batch([e.part], e.metadata)) == Some(First(e))
  {
    DeliverOne(None, e);
    AbsorbOne(None, e);
    assert "" + e.part.text == e.part.text;
    if e.part.seqNo.Some? { assert [] + [e.part.seqNo.value] == [e.part.seqNo.value]; }
    MergeOntoNone(e.metadata);
  }

  lemma FinalAnswerRemovesOpen(ms: seq<Message>, src: Source, c: Core, done: EventBody)
    requires Shows(ms, src, Some(c)) && src.agent == "final_output" && done.Completed?
    requires var text := if done.response != "" then done.response else done.content;
             text != "" && !IsDiagnosticMessage(text) && !IsStatusMessage(text)
    ensures Shows(ApplyFinalCompleted(ms, src.wf, done), src, None)
  {
    var mid := ClearedForFinal(ms, src.wf);
    var text := if done.response != "" then done.response else done.content;
    var after := WithFinalCompleted(mid, src.wf, text, done.metadata);
    assert ApplyFinalCompleted(ms, src.wf, done) == after;
    Invariant.FinalCompletedKeeps(ms, src.wf, done);
    ClearedHoldsNone(ms, src, c);
    forall m | m in after ensures !m.StreamingFor(src.wf) && m.id != src.Id() {
      AnswerJoins(mid, src.wf, text, done.metadata, m);
    }
    ShowsNothing(after, src);
  }

  lemma AnswerJoins(mid: seq<Message>, wf: string, text: string, metadata: Option<Meta>, m: Message)
    requires m in WithFinalCompleted(mid, wf, text, metadata)
    ensures m in mid || (m.id == FinalId(wf) && !m.isStreaming)
  {
    var i, after := FirstIndex(mid, WithId(FinalId(wf))), WithFinalCompleted(mid, wf, text, metadata);
    var k :| 0 <= k < |after| && after[k] == m;
    if k != i { assert m == mid[k]; }
  }

  lemma ShowsNothing(ms: seq<Message>, src: Source)
    requires Invariant.WellFormed(ms) && forall m <- ms :: !m.StreamingFor(src.wf) && m.id != src.Id()
    ensures Shows(ms, src, None)
  {
    assert forall k :: 0 <= k < |ms| ==> ms[k] in ms;
  }

  lemma ClearedHoldsNone(ms: seq<Message>, src: Source, c: Core)
    requires Shows(ms, src, Some(c)) && src.agent == "final_output"
    ensures forall m <- ClearedForFinal(ms, src.wf) :: !m.StreamingFor(src.wf) && m.id != src.Id()
  {
    var once := Without(ms, GeneratingOf(src.wf));
    var i := LastStreaming(ms, src.wf);
    Invariant.OneStream(ms, src.wf);
    forall m | m in ClearedForFinal(ms, src.wf) ensures !m.StreamingFor(src.wf) && m.id != src.Id() {
      assert m in once && m in ms && !StreamingFinal(src.wf).Matches(m);
      var k :| 0 <= k < |ms| && ms[k] == m;
      assert k != i;
      assert k < i ==> !Invariant.Clash(ms[k], ms[i]);
      assert k > i ==> !Invariant.Clash(ms[i], ms[k]);
    }
  }
}
