/** What each event shows in the conversation, in terms of the event and of the messages before it. */
module RunSliceShown {
  import opened Text
  import opened MessageFilter
  import opened RunSlice
  import Invariant = RunSliceInvariant
  import Repeat = RunSliceRepeat

  // ---------------------------------------------------------------- vocabulary

  /** The agents whose text reaches the conversation. */
  predicate Speaks(agent: string) {
    agent == "" || agent == "simple-agent" || agent == "final_output" || agent == "swarm-lead"
  }

  predicate Diagnostic(text: string) { StartsWith(text, "[Incomplete response:") || Contains(text, "Task budget at") }

  predicate OpenFor(m: Message, wf: string) { m.role == Assistant && m.isStreaming && m.taskId == wf }

  predicate PlaceholderFor(m: Message, wf: string) { m.role == Assistant && m.isGenerating && m.taskId == wf }

  predicate PillOf(m: Message, wf: string) { m.role == Status && m.taskId == wf }

  ghost predicate NoneOpen(ms: seq<Message>, wf: string) { forall m <- ms :: !OpenFor(m, wf) }

  ghost predicate NoId(ms: seq<Message>, id: MsgId) { forall m <- ms :: m.id != id }

  /** A settled message of the workflow with this very text. */
  ghost predicate Stands(ms: seq<Message>, wf: string, text: string) {
    exists m <- ms :: m.role == Assistant && m.taskId == wf && !m.isStreaming && !m.isGenerating && m.content == text
  }

  /** m stands at g and the other messages keep their order; before it there is no placeholder of the
      workflow, and behind it either one or nothing. */
  ghost predicate PutBeforePlaceholder(ms: seq<Message>, after: seq<Message>, wf: string, m: Message, g: nat) {
    && g <= |ms| && after == ms[..g] + [m] + ms[g..]
    && (forall k :: 0 <= k < g ==> !PlaceholderFor(ms[k], wf))
    && (g < |ms| ==> PlaceholderFor(ms[g], wf))
  }

  /** `after` holds m and exactly the messages of `ms`, but for the placeholders that an answer of the
      simple agent takes the place of. */
  ghost predicate Joins(ms: seq<Message>, after: seq<Message>, wf: string, agent: string, m: Message) {
    forall x :: x in after
      <==> (x in ms && !(agent == "simple-agent" && x.isGenerating && x.taskId == wf)) || x == m
  }

  lemma NoneOpenIs(ms: seq<Message>, wf: string)
    ensures NoneOpen(ms, wf) <==> LastStreaming(ms, wf) < 0
  {
    var i := LastStreaming(ms, wf);
    if i >= 0 { assert ms[i] in ms && OpenFor(ms[i], wf); }
  }

  lemma PlacedIs(ms: seq<Message>, wf: string, m: Message) returns (g: nat)
    ensures PutBeforePlaceholder(ms, InsertBeforePlaceholder(ms, wf, m), wf, m, g)
  {
    g := FirstIndex(ms, GeneratingAssistant(wf));
    forall k | 0 <= k < g ensures !PlaceholderFor(ms[k], wf) { assert !GeneratingAssistant(wf).Matches(ms[k]); }
    if g < |ms| { assert GeneratingAssistant(wf).Matches(ms[g]); }
  }

  // ---------------------------------------------------------------- who is heard

  /** Text of any other agent never reaches the conversation. */
  lemma OthersAreNotHeard(s: RunState, e: Event)
    requires !Speaks(e.agent) && (e.body.Delta? || e.body.Completed? || e.body.LlmOutput?)
    ensures Reduce(s, e).messages == s.messages
  {
  }

  /** And the session's title is the first completed text of the title generator. */
  lemma TitleIsFirstGenerated(s: RunState, e: Event)
    ensures Reduce(s, e).sessionTitle
         == if e.agent == "title_generator" && e.body.Completed? && s.sessionTitle == "" then
              (if e.body.response != "" then e.body.response else e.body.content)
            else s.sessionTitle
  {
  }

  /** Historical events leave the conversation alone. */
  lemma HistoryIsSilent(s: RunState, e: Event)
    requires e.historical
    ensures Reduce(s, e) == s.(sessionTitle := Reduce(s, e).sessionTitle)
  {
  }

  // ---------------------------------------------------------------- deltas

  /** The text of the parts that are not diagnostic. */
  function Visible(parts: seq<Part>): string {
    if parts == [] then ""
    else (if Diagnostic(parts[0].text) then "" else parts[0].text) + Visible(parts[1..])
  }

  predicate AnyVisible(parts: seq<Part>) { exists p <- parts :: !Diagnostic(p.text) }

  lemma {:induction false} VisibleIs(parts: seq<Part>)
    ensures Joined(NonDiagnostic(parts)) == Visible(parts)
  {
    if parts != [] {
      VisibleIs(parts[1..]);
      var rest := NonDiagnostic(parts[1..]);
      assert [] + rest == rest && "" + Visible(parts[1..]) == Visible(parts[1..]);
      assert ([parts[0]] + rest)[1..] == rest;
    }
  }

  lemma {:induction false} AnyVisibleIs(parts: seq<Part>)
    requires AnyVisible(parts)
    ensures NonDiagnostic(parts) != []
  {
    if Diagnostic(parts[0].text) {
      assert forall p <- parts :: p == parts[0] || p in parts[1..];
      AnyVisibleIs(parts[1..]);
    }
  }

  lemma {:induction false} AllAreNew(parts: seq<Part>)
    ensures NewParts(parts, []) == parts
  {
    if parts != [] { AllAreNew(parts[1..]); }
  }

  /** The first visible delta of a heard agent opens a message with its text, at the end or before the
      placeholder of the workflow, and changes no other message. */
  lemma DeltaOpens(s: RunState, e: Event) returns (m: Message, g: nat)
    requires e.body.Delta? && !e.historical && Speaks(e.agent) && AnyVisible(e.body.parts)
    requires NoneOpen(s.messages, e.wf) && NoId(s.messages, StreamMsgId(e.wf, DeltaKey(e.body.streamId, e.body.clock)))
    ensures m.id == StreamMsgId(e.wf, DeltaKey(e.body.streamId, e.body.clock))
    ensures OpenFor(m, e.wf) && m.content == Visible(e.body.parts) && m.sender == e.agent
    ensures !m.isGenerating && !m.isFinalOutput && m.metadata == e.body.metadata
    ensures PutBeforePlaceholder(s.messages, Reduce(s, e).messages, e.wf, m, g)
  {
    var d := e.body;
    m := StreamMessage(StreamMsgId(e.wf, DeltaKey(d.streamId, d.clock)), e.wf, e.agent, NonDiagnostic(d.parts), d.metadata);
    g := PlacedIs(s.messages, e.wf, m);
    VisibleIs(d.parts);
    OpeningDelta(s.messages, e.wf, e.agent, d);
    DeltaReduces(s, e);
  }

  lemma OpeningDelta(ms: seq<Message>, wf: string, agent: string, d: EventBody)
    requires d.Delta? && AnyVisible(d.parts)
    requires NoneOpen(ms, wf) && NoId(ms, StreamMsgId(wf, DeltaKey(d.streamId, d.clock)))
    ensures ApplyDelta(ms, wf, agent, d)
         == InsertBeforePlaceholder(ms, wf, StreamMessage(StreamMsgId(wf, DeltaKey(d.streamId, d.clock)), wf, agent,
                                                          NonDiagnostic(d.parts), d.metadata))
  {
    NoneOpenIs(ms, wf);
    AnyVisibleIs(d.parts);
    AllAreNew(NonDiagnostic(d.parts));
    assert !Has(ms, WithId(StreamMsgId(wf, DeltaKey(d.streamId, d.clock))));
  }

  lemma DeltaReduces(s: RunState, e: Event)
    requires e.body.Delta? && !e.historical && Speaks(e.agent)
    ensures Reduce(s, e).messages == ApplyDelta(s.messages, e.wf, e.agent, e.body)
  {
  }

  function LastHundred(s: seq<int>): seq<int> { if |s| <= 100 then s else s[|s| - 100..] }

  /** The last open message of the workflow. */
  ghost predicate LastOpen(ms: seq<Message>, wf: string, i: nat) {
    i < |ms| && OpenFor(ms[i], wf) && forall k :: i < k < |ms| ==> !OpenFor(ms[k], wf)
  }

  /** A delta extends the open message unless it is diagnostic or its number is on the message's list. */
  lemma DeltaExtends(s: RunState, e: Event, i: nat, p: Part)
    requires e.body.Delta? && !e.historical && Speaks(e.agent) && e.body.parts == [p] && LastOpen(s.messages, e.wf, i)
    ensures var was, now := s.messages[i], Reduce(s, e).messages;
            if Diagnostic(p.text) || (p.seqNo.Some? && p.seqNo.value in was.processed) then now == s.messages
            else
              && |now| == |s.messages| && now == s.messages[i := now[i]]
              && now[i] == was.(content := was.content + p.text, metadata := now[i].metadata,
                                processed := now[i].processed)
              && (p.seqNo.Some? ==> now[i].processed == LastHundred(was.processed + [p.seqNo.value]))
              && (p.seqNo.None? ==> now[i].processed == was.processed)
              && (e.body.metadata.None? ==> now[i].metadata == was.metadata)
              && (e.body.metadata.Some? ==>
                    now[i].metadata.Some? && Updates(was.metadata, e.body.metadata.value, now[i].metadata.value))
  {
    OpenIs(s.messages, e.wf, i);
    OnePart(p, s.messages[i].processed);
    DeltaReduces(s, e);
  }

  /** The entries of m, and those of `was` under other keys. */
  ghost predicate Updates(was: Option<Meta>, m: Meta, now: Meta) {
    forall k :: (k in now <==> k in m || (was.Some? && k in was.value))
             && (k in m ==> now[k] == m[k])
             && (k !in m && was.Some? && k in was.value ==> now[k] == was.value[k])
  }

  lemma OpenIs(ms: seq<Message>, wf: string, i: nat)
    requires LastOpen(ms, wf, i)
    ensures LastStreaming(ms, wf) == i
  {
    forall k | i < k < |ms| ensures !ms[k].StreamingFor(wf) { assert !OpenFor(ms[k], wf); }
    assert ms[i].StreamingFor(wf);
  }

  lemma OnePart(p: Part, processed: seq<int>)
    ensures NonDiagnostic([p]) == if Diagnostic(p.text) then [] else [p]
    ensures NewParts([p], processed) == if p.seqNo.Some? && p.seqNo.value in processed then [] else [p]
    ensures Joined([p]) == p.text
    ensures Recorded(processed, Seqs([p]))
         == if p.seqNo.Some? then CapProcessedDeltas(processed, p.seqNo.value) else processed
  {
    assert [p][1..] == [];
    if p.seqNo.Some? {
      assert Seqs([p]) == [p.seqNo.value] + [] == [p.seqNo.value];
      assert [p.seqNo.value][1..] == [];
    }
  }

  /** Metadata of a task goes to its last assistant message, key by key, and nowhere else. */
  lemma MetadataIsMerged(ms: seq<Message>, wf: string, metadata: Meta)
    ensures var now := WithMetadata(ms, wf, metadata);
            if forall m <- ms :: !(m.role == Assistant && m.taskId == wf) then now == ms
            else
              exists i, merged :: 0 <= i < |ms| && ms[i].role == Assistant && ms[i].taskId == wf
                && (forall k :: i < k < |ms| ==> !(ms[k].role == Assistant && ms[k].taskId == wf))
                && now == ms[i := ms[i].(metadata := Some(merged))] && Updates(ms[i].metadata, metadata, merged)
  {
    var i := LastAssistant(ms, wf);
    if i >= 0 {
      assert ms[i] in ms;
      var merged := (if ms[i].metadata.Some? then ms[i].metadata.value else map[]) + metadata;
      assert Updates(ms[i].metadata, metadata, merged);
      assert WithMetadata(ms, wf, metadata) == ms[i := ms[i].(metadata := Some(merged))];
    }
  }

  // ---------------------------------------------------------------- completed messages

  predicate SpeaksPlainly(agent: string) { agent == "" || agent == "simple-agent" || agent == "swarm-lead" }

  /** A completed event settles the open message with its response, or removes it when the response is
      diagnostic. */
  lemma CompletedCloses(s: RunState, e: Event, i: nat)
    requires e.body.Completed? && !e.historical && SpeaksPlainly(e.agent) && LastOpen(s.messages, e.wf, i)
    ensures var was, now, c := s.messages[i], Reduce(s, e).messages, e.body;
            if Diagnostic(c.response) then now == s.messages[..i] + s.messages[i + 1..]
            else now == s.messages[i := was.(isStreaming := false, metadata := c.metadata,
                                             content := if c.response != "" then c.response else was.content)]
  {
    OpenIs(s.messages, e.wf, i);
    CompletedReduces(s, e);
  }

  lemma CompletedReduces(s: RunState, e: Event)
    requires e.body.Completed? && !e.historical && SpeaksPlainly(e.agent)
    ensures Reduce(s, e).messages == ApplyCompleted(s.messages, e.wf, e.agent, e.body)
  {
  }

  /** Without an open message its text is shown as a new message, unless it is empty, diagnostic or a mere
      status, or stands there already. Only the simple agent's answer takes the placeholder's place. */
  lemma CompletedShows(s: RunState, e: Event) returns (m: Message)
    requires e.body.Completed? && !e.historical && SpeaksPlainly(e.agent) && NoneOpen(s.messages, e.wf)
    ensures var c := e.body;
            var text := if c.response != "" then c.response else c.content;
            var id := StreamMsgId(e.wf, CompletedKey(c.streamId, c.seqNo, c.clock));
            var now := Reduce(s, e).messages;
            if text == "" || Diagnostic(text) || IsStatusMessage(text) || !NoId(s.messages, id)
               || Stands(s.messages, e.wf, text)
            then now == s.messages
            else
              && m == Message(id, Assistant, text, e.wf, e.agent, false, false, false, c.metadata, "", [])
              && Joins(s.messages, now, e.wf, e.agent, m)
  {
    var c := e.body;
    var text := if c.response != "" then c.response else c.content;
    var id := StreamMsgId(e.wf, CompletedKey(c.streamId, c.seqNo, c.clock));
    m := PlainMessage(id, e.wf, e.agent, text, c.metadata);
    NoneOpenIs(s.messages, e.wf);
    CompletedReduces(s, e);
    SameTests(s.messages, e.wf, id, text);
    PlacedKeeps(s.messages, e.wf, e.agent, m);
  }

  lemma SameTests(ms: seq<Message>, wf: string, id: MsgId, text: string)
    ensures Has(ms, WithId(id)) <==> !NoId(ms, id)
    ensures Has(ms, SameAnswer(wf, text)) <==> Stands(ms, wf, text)
  {
    if Has(ms, WithId(id)) {
      var m :| m in ms && WithId(id).Matches(m);
      assert m.id == id;
    }
    if !NoId(ms, id) {
      var m :| m in ms && m.id == id;
      assert WithId(id).Matches(m);
    }
    if Has(ms, SameAnswer(wf, text)) {
      var m :| m in ms && SameAnswer(wf, text).Matches(m);
      assert m.content == text;
    }
    if Stands(ms, wf, text) {
      var m :| m in ms && m.role == Assistant && m.taskId == wf && !m.isStreaming && !m.isGenerating && m.content == text;
      assert SameAnswer(wf, text).Matches(m);
    }
  }

  lemma PlacedKeeps(ms: seq<Message>, wf: string, agent: string, m: Message)
    ensures Joins(ms, InsertBeforePlaceholder(PlaceholderCleared(ms, wf, agent), wf, m), wf, agent, m)
  {
    var base := PlaceholderCleared(ms, wf, agent);
    ClearedKeeps(ms, wf, agent);
    InsertedHolds(base, FirstIndex(base, GeneratingAssistant(wf)), m);
  }

  lemma ClearedKeeps(ms: seq<Message>, wf: string, agent: string)
    ensures forall x :: x in PlaceholderCleared(ms, wf, agent)
              <==> x in ms && !(agent == "simple-agent" && x.isGenerating && x.taskId == wf)
  {
    forall x | x in ms && !(x.isGenerating && x.taskId == wf) ensures x in Without(ms, GeneratingOf(wf)) {
      assert !GeneratingOf(wf).Matches(x);
    }
    forall x | x in Without(ms, GeneratingOf(wf)) ensures x in ms && !(x.isGenerating && x.taskId == wf) {
      assert !GeneratingOf(wf).Matches(x);
    }
  }

  lemma InsertedHolds(ms: seq<Message>, g: nat, m: Message)
    requires g <= |ms|
    ensures forall x :: x in ms[..g] + [m] + ms[g..] <==> x in ms || x == m
  {
    assert ms == ms[..g] + ms[g..];
  }

  // ---------------------------------------------------------------- LLM output

  /** An answer is shown at the end of the conversation unless it is empty, diagnostic, or stands there
      already, under its id or with its text. The payload's text comes before the message. */
  lemma AnswerShows(s: RunState, e: Event) returns (m: Message)
    requires e.body.LlmOutput? && !e.historical && SpeaksPlainly(e.agent) && !e.body.interim
    ensures var o := e.body;
            var text := if o.text != "" then o.text else o.message;
            var id := LlmId(e.agent, e.wf, text, o.seqNo);
            var now := Reduce(s, e).messages;
            && (text != "" && !Diagnostic(text) ==> Stands(now, e.wf, text) || !NoId(now, id))
            && if text == "" || Diagnostic(text) || !NoId(s.messages, id) || Stands(s.messages, e.wf, text)
               then now == s.messages
               else
                 && m == Message(id, Assistant, text, e.wf, e.agent, false, false, false, o.metadata, "", [])
                 && now != [] && now[|now| - 1] == m
                 && Joins(s.messages, now, e.wf, e.agent, m)
  {
    var o := e.body;
    var text := if o.text != "" then o.text else o.message;
    var id := LlmId(e.agent, e.wf, text, o.seqNo);
    m := PlainMessage(id, e.wf, e.agent, text, o.metadata);
    OutputReduces(s, e);
    SameTests(s.messages, e.wf, id, text);
    ClearedKeeps(s.messages, e.wf, e.agent);
    var base := PlaceholderCleared(s.messages, e.wf, e.agent);
    assert (base + [m])[|base|] == m;
    assert m in base + [m];
  }

  lemma OutputReduces(s: RunState, e: Event)
    requires e.body.LlmOutput? && !e.historical && Speaks(e.agent)
    ensures Reduce(s, e).messages == ApplyLlmOutput(s.messages, e.wf, e.agent, e.body)
  {
  }

  /** Answers of one agent in one workflow that carry different numbers have different ids, and those
      without numbers differ in id from those with one. */
  lemma AnswerIdsDiffer(agent: string, wf: string, a: string, b: string, m: int, n: Option<int>)
    requires n != Some(m)
    ensures LlmId(agent, wf, a, Some(m)) != LlmId(agent, wf, b, n)
  {
    var pre := (if agent == "" then "assistant" else agent) + "-" + wf + "-";
    var x := PrintInt(m);
    var y := LlmId(agent, wf, b, n).rest[|pre|..];
    assert LlmId(agent, wf, a, Some(m)).rest == pre + x;
    assert LlmId(agent, wf, b, n).rest == pre + y;
    if n.Some? {
      PrintsApart(m, n.value);
      assert y == PrintInt(n.value);
    } else {
      assert y[0] == 'm';
      PrintStarts(m);
    }
    assert (pre + x)[|pre|..] == x && (pre + y)[|pre|..] == y;
  }

  /** What stands for a text without a number: its ends when it is long, without white space. */
  function Fingerprint(text: string): string {
    RemoveSpaces(if |text| > 100 then text[..50] + text[|text| - 50..] else text)
  }

  /** White space vanishes, everything else stays. */
  lemma SpacesVanish(a: string, c: char, b: string)
    ensures RemoveSpaces(a + [c] + b) == RemoveSpaces(a) + (if IsSpace(c) then "" else [c]) + RemoveSpaces(b)
  {
    RemovedApart(a + [c], b);
    RemovedApart(a, [c]);
    assert [c][1..] == "";
  }

  lemma {:induction false} RemovedApart(a: string, b: string)
    ensures RemoveSpaces(a + b) == RemoveSpaces(a) + RemoveSpaces(b)
  {
    if a == "" {
      assert a + b == b;
    } else {
      assert (a + b)[1..] == a[1..] + b;
      RemovedApart(a[1..], b);
    }
  }

  lemma SameIdExactlyWhen(agent: string, wf: string, a: string, b: string)
    ensures LlmId(agent, wf, a, None) == LlmId(agent, wf, b, None) <==> Fingerprint(a) == Fingerprint(b)
  {
    var pre := (if agent == "" then "assistant" else agent) + "-" + wf + "-" + "msg-";
    var x, y := Fingerprint(a), Fingerprint(b);
    assert LlmId(agent, wf, a, None).rest == pre + x && LlmId(agent, wf, b, None).rest == pre + y;
    assert (pre + x)[|pre|..] == x && (pre + y)[|pre|..] == y;
  }

  /** So a second answer without a number is lost when it has the fingerprint of the first: a long one
      that differs only in its middle. */
  lemma LikeAnswerIsLost(s: RunState, first: Event, second: Event)
    requires first.body.LlmOutput? && !first.historical && SpeaksPlainly(first.agent) && !first.body.interim
    requires second.body.LlmOutput? && !second.historical && second.agent == first.agent && !second.body.interim
    requires first.wf == second.wf && first.body.seqNo.None? && second.body.seqNo.None?
    requires first.body.text != "" && !Diagnostic(first.body.text) && second.body.text != ""
    requires NoId(s.messages, LlmId(first.agent, first.wf, first.body.text, None))
    requires !Stands(s.messages, first.wf, first.body.text)
    requires Fingerprint(first.body.text) == Fingerprint(second.body.text)
    ensures Reduce(Reduce(s, first), second).messages == Reduce(s, first).messages
  {
    var m := AnswerShows(s, first);
    SameIdExactlyWhen(first.agent, first.wf, first.body.text, second.body.text);
    var now := Reduce(s, first).messages;
    assert m in now;
    var _ := AnswerShows(Reduce(s, first), second);
  }

  /** The parts of message ids that stand for a stream. A number zero counts as missing, and a delta's own
      key is never that of a completed event. */
  lemma KeysAre(streamId: string, seqNo: Option<int>, clock: nat)
    ensures DeltaKey(streamId, clock) == if streamId == "" then "msg-" + PrintNat(clock) else streamId
    ensures CompletedKey(streamId, seqNo, clock)
         == if streamId != "" then streamId
            else match seqNo case None => PrintNat(clock) case Some(n) => if n == 0 then PrintNat(clock) else PrintInt(n)
  {
  }

  lemma KeysDiffer(a: nat, seqNo: Option<int>, b: nat)
    ensures DeltaKey("", a) != CompletedKey("", seqNo, b)
    ensures a != b ==> DeltaKey("", a) != DeltaKey("", b)
  {
    var n := if seqNo.Some? && seqNo.value != 0 then seqNo.value else b;
    PrintStarts(n);
    assert DeltaKey("", a)[0] == 'm';
    if a != b {
      PrintsApart(a, b);
      assert DeltaKey("", a)[4..] == PrintNat(a) && DeltaKey("", b)[4..] == PrintNat(b);
    }
  }

  /** An interim reply of a heard agent stands under its own id with the latest text, marked as interim,
      and no other message changes. */
  lemma InterimShows(s: RunState, e: Event) returns (m: Message)
    requires e.body.LlmOutput? && !e.historical && SpeaksPlainly(e.agent) && e.body.interim
    ensures var now, id := Reduce(s, e).messages, MsgId(InterimLead, e.wf);
            if e.body.message == "" then now == s.messages
            else
              && m in now && m.id == id && m.content == e.body.message
              && (forall x <- s.messages :: x.id != id ==> x in now)
              && (forall x <- now :: x == m || x in s.messages)
              && (NoId(s.messages, id) ==>
                    && m.role == Assistant && m.sender == "swarm-lead" && m.taskId == e.wf && m.Interim()
                    && !m.isStreaming && !m.isGenerating && now == s.messages + [m])
  {
    var id := MsgId(InterimLead, e.wf);
    var i := FirstIndex(s.messages, WithId(id));
    OutputReduces(s, e);
    var now := Reduce(s, e).messages;
    assert now == ApplyInterim(s.messages, e.wf, e.body.message);
    m := if e.body.message != "" then now[i] else PlainMessage(id, e.wf, "swarm-lead", "", None);
    if e.body.message != "" && i < |s.messages| {
      assert s.messages[i] in s.messages && s.messages[i].id == id;
      UpdatedHolds(s.messages, i, m);
    }
  }

  lemma UpdatedHolds(ms: seq<Message>, i: nat, m: Message)
    requires i < |ms|
    ensures m in ms[i := m]
    ensures forall x <- ms :: x != ms[i] ==> x in ms[i := m]
    ensures forall x <- ms[i := m] :: x == m || x in ms
  {
    var after := ms[i := m];
    assert after[i] == m;
    forall x | x in ms && x != ms[i] ensures x in after {
      var k :| 0 <= k < |ms| && ms[k] == x;
      assert after[k] == x;
    }
  }

  /** A placeholder of the workflow or a streamed draft of its final answer. */
  predicate Draft(m: Message, wf: string) {
    m.taskId == wf && (m.isGenerating || (m.sender == "final_output" && m.isStreaming))
  }

  predicate FinalAnswer(m: Message, wf: string, text: string) {
    && m.id == FinalId(wf) && m.role == Assistant && m.sender == "final_output" && m.content == text
    && m.taskId == wf && m.isFinalOutput && !m.isStreaming && !m.isGenerating
  }

  /** The answer stands under the final id, no draft is left, and every other message is kept. */
  ghost predicate ShowsFinal(ms: seq<Message>, now: seq<Message>, wf: string, text: string, m: Message) {
    && m in now && FinalAnswer(m, wf, text)
    && (forall x <- now :: !Draft(x, wf) && (x == m || (x in ms && x.id != FinalId(wf))))
    && (forall x <- ms :: x in now || Draft(x, wf) || x.id == FinalId(wf))
  }

  /** In a reachable list the final LLM output always becomes the answer. */
  lemma FinalOutputShows(s: RunState, e: Event) returns (m: Message)
    requires e.body.LlmOutput? && !e.historical && e.agent == "final_output" && Invariant.WellFormed(s.messages)
    ensures if e.body.message == "" then Reduce(s, e).messages == s.messages
            else ShowsFinal(s.messages, Reduce(s, e).messages, e.wf, e.body.message, m)
  {
    var wf, text := e.wf, e.body.message;
    var cleared := ClearedForFinal(s.messages, wf);
    OutputReduces(s, e);
    m := Repeat.OutputReply(cleared, wf, text);
    if text != "" {
      OutputPuts(s.messages, wf, text);
      PutFinalShows(s.messages, wf, text, m);
    }
  }

  lemma OutputPuts(ms: seq<Message>, wf: string, text: string)
    requires Invariant.WellFormed(ms) && text != ""
    ensures var cleared := ClearedForFinal(ms, wf);
            var m := Repeat.OutputReply(cleared, wf, text);
            FinalAnswer(m, wf, text) && ApplyFinalOutput(ms, wf, text) == Repeat.PutFinal(cleared, wf, m)
  {
    var cleared := ClearedForFinal(ms, wf);
    var i := FirstIndex(cleared, WithId(FinalId(wf)));
    Invariant.ClearedForFinalKeeps(ms, wf);
    OnlyFinalId(cleared, wf);
    if i < |cleared| { NoDraftIsGenerating(ms, wf, i); }
  }

  lemma NoDraftIsGenerating(ms: seq<Message>, wf: string, i: nat)
    requires Invariant.WellFormed(ms) && i < |ClearedForFinal(ms, wf)| && ClearedForFinal(ms, wf)[i].id == FinalId(wf)
    ensures !ClearedForFinal(ms, wf)[i].isGenerating
  {
    Repeat.ClearedIs(ms, wf);
    Invariant.ClearedForFinalKeeps(ms, wf);
    var cleared := ClearedForFinal(ms, wf);
    assert Invariant.Shaped(cleared[i]) && !Repeat.Draft(cleared[i], wf);
  }

  /** A final message of a workflow always has the final id. */
  lemma OnlyFinalId(ms: seq<Message>, wf: string)
    requires Invariant.WellFormed(ms)
    ensures forall x <- ms :: x.taskId == wf && x.isFinalOutput ==> x.id == FinalId(wf)
    ensures Has(ms, FinalOf(wf)) ==> FirstIndex(ms, WithId(FinalId(wf))) < |ms|
  {
    forall x | x in ms && x.taskId == wf && x.isFinalOutput ensures x.id == FinalId(wf) {
      var k :| 0 <= k < |ms| && ms[k] == x;
      assert Invariant.Shaped(ms[k]);
    }
    if Has(ms, FinalOf(wf)) {
      var x :| x in ms && FinalOf(wf).Matches(x);
      var k :| 0 <= k < |ms| && ms[k] == x;
      assert WithId(FinalId(wf)).Matches(ms[k]);
    }
  }

  lemma PutFinalShows(ms: seq<Message>, wf: string, text: string, m: Message)
    requires Invariant.WellFormed(ms) && FinalAnswer(m, wf, text)
    ensures ShowsFinal(ms, Repeat.PutFinal(ClearedForFinal(ms, wf), wf, m), wf, text, m)
  {
    var cleared := ClearedForFinal(ms, wf);
    var now, i := Repeat.PutFinal(cleared, wf, m), FirstIndex(cleared, WithId(FinalId(wf)));
    Repeat.ClearedIs(ms, wf);
    Repeat.PutFinalKeepsOthers(cleared, wf, m);
    Invariant.ClearedForFinalKeeps(ms, wf);
    assert now[i] == m;
    forall x | x in now ensures !Draft(x, wf) && (x == m || (x in ms && x.id != FinalId(wf))) {
      var k :| 0 <= k < |now| && now[k] == x;
      if k != i {
        OtherIsNoFinal(cleared, wf, k);
        assert cleared[k] in cleared && !Repeat.Draft(cleared[k], wf);
      }
    }
    forall x | x in ms ensures x in now || Draft(x, wf) || x.id == FinalId(wf) { assert x in cleared || Draft(x, wf); }
  }

  lemma OtherIsNoFinal(cleared: seq<Message>, wf: string, k: nat)
    requires Invariant.WellFormed(cleared)
    requires k < |cleared| && k != FirstIndex(cleared, WithId(FinalId(wf)))
    ensures cleared[k].id != FinalId(wf)
  {
    var i := FirstIndex(cleared, WithId(FinalId(wf)));
    if k < i { assert !WithId(FinalId(wf)).Matches(cleared[k]); } else { assert !Invariant.Clash(cleared[i], cleared[k]); }
  }

  /** The completed final answer does the same, unless its text is empty, diagnostic or a mere status. */
  lemma FinalCompletedShows(s: RunState, e: Event) returns (m: Message)
    requires e.body.Completed? && !e.historical && e.agent == "final_output" && Invariant.WellFormed(s.messages)
    ensures var text := if e.body.response != "" then e.body.response else e.body.content;
            if text == "" || Diagnostic(text) || IsStatusMessage(text) then Reduce(s, e).messages == s.messages
            else
              && ShowsFinal(s.messages, Reduce(s, e).messages, e.wf, text, m)
              && (e.body.metadata.Some? ==> m.metadata == e.body.metadata)
  {
    var wf, c := e.wf, e.body;
    var text := if c.response != "" then c.response else c.content;
    m := FinalMessage(wf, text, c.metadata);
    FinalCompletedReduces(s, e);
    if !(text == "" || Diagnostic(text) || IsStatusMessage(text)) {
      var cleared := ClearedForFinal(s.messages, wf);
      Repeat.ClearedIs(s.messages, wf);
      Invariant.ClearedForFinalKeeps(s.messages, wf);
      Repeat.FinalIdsFit(cleared, wf);
      m := Repeat.FinalReply(cleared, wf, c);
      Repeat.FinalReplyAnswers(cleared, wf, c);
      Repeat.FinalCompletedPuts(s.messages, wf, c);
      PutFinalShows(s.messages, wf, text, m);
    }
  }

  lemma FinalCompletedReduces(s: RunState, e: Event)
    requires e.body.Completed? && !e.historical && e.agent == "final_output"
    ensures Reduce(s, e).messages == ApplyFinalCompleted(s.messages, e.wf, e.body)
  {
  }
}
