/** python/llm-service/llm_provider/minimax_provider.py: removal of <think> blocks from a text
    that arrives in chunks, against the regular expression applied to the whole text. */
module ThinkFilter {

  const OPEN := "<think>"
  const CLOSE := "</think>"

  // ---------------------------------------------------------------- specification

  predicate At(s: string, i: int, tag: string) { 0 <= i <= |s| - |tag| && s[i..i + |tag|] == tag }

  /** `str.find`: the first occurrence, or -1. */
  function Find(s: string, tag: string): (i: int)
    ensures i == -1 || 0 <= i <= |s| - |tag|
  {
    FindFrom(s, tag, 0)
  }

  function FindFrom(s: string, tag: string, from: nat): (i: int)
    ensures i == -1 || from <= i <= |s| - |tag|
    decreases |s| + 1 - from
  {
    if from > |s| then -1
    else if At(s, from, tag) then from
    else FindFrom(s, tag, from + 1)
  }

  /** i is the position of the first occurrence, or -1 when there is none. */
  ghost predicate First(s: string, tag: string, i: int) {
    (i == -1 || At(s, i, tag)) && forall k :: 0 <= k && (i == -1 || k < i) ==> !At(s, k, tag)
  }

  lemma FindIsFirst(s: string, tag: string)
    ensures First(s, tag, Find(s, tag))
  {
    FindFromIsFirst(s, tag, 0);
  }

  lemma {:induction false} FindFromIsFirst(s: string, tag: string, from: nat)
    requires from <= |s| + 1 && forall k :: 0 <= k < from ==> !At(s, k, tag)
    ensures First(s, tag, FindFrom(s, tag, from))
    decreases |s| + 1 - from
  {
    if from <= |s| && !At(s, from, tag) { FindFromIsFirst(s, tag, from + 1); }
  }

  /** `re.sub` of the non-greedy `<think>.*?</think>` over the whole text, line breaks included:
      from the left, an opening tag with a later closing tag is cut out with all between. */
  function Strip(text: string): string
    decreases |text|
  {
    var i := Find(text, OPEN);
    if i == -1 then text
    else
      var rest := text[i + |OPEN|..];
      var j := Find(rest, CLOSE);
      if j == -1 then text else text[..i] + Strip(rest[j + |CLOSE|..])
  }

  /** The scanner between two chunks. */
  datatype Scanner = Scanner(buffer: string, inThink: bool)

  const START := Scanner("", false)

  /** The inner loop: flushes the safe portions of the buffer. */
  function Drain(s: Scanner): (r: (Scanner, string))
    decreases |s.buffer|, if s.inThink then 0 else 1
  {
    if s.inThink then
      var end := Find(s.buffer, CLOSE);
      if end == -1 then (s, "") else Drain(Scanner(s.buffer[end + |CLOSE|..], false))
    else
      var start := Find(s.buffer, OPEN);
      if start == -1 then (START, s.buffer)
      else
        var r := Drain(Scanner(s.buffer[start + |OPEN|..], true));
        (r.0, s.buffer[..start] + r.1)
  }

  function Feed(s: Scanner, chunk: string): (Scanner, string) { Drain(s.(buffer := s.buffer + chunk)) }

  function FeedAll(s: Scanner, chunks: seq<string>): (Scanner, string)
    decreases chunks
  {
    if chunks == [] then (s, "")
    else
      var a := Feed(s, chunks[0]);
      var b := FeedAll(a.0, chunks[1..]);
      (b.0, a.1 + b.1)
  }

  /** Everything the stream yields, the flush after the last chunk included. */
  function Streamed(chunks: seq<string>): string {
    var r := FeedAll(START, chunks);
    r.1 + if r.0.inThink then "" else r.0.buffer
  }

  function Concat(chunks: seq<string>): string { if chunks == [] then "" else chunks[0] + Concat(chunks[1..]) }

  lemma Appended(x: string, y: string, z: string)
    ensures x + (y + z) == (x + y) + z
    ensures "" + y == y
  {
  }

  /** Nothing more can be done with the buffer alone. */
  predicate Settled(s: Scanner) { if s.inThink then Find(s.buffer, CLOSE) == -1 else s.buffer == "" }

  lemma {:induction false} DrainSettles(s: Scanner)
    ensures Settled(Drain(s).0)
    decreases |s.buffer|, if s.inThink then 0 else 1
  {
    if s.inThink {
      var end := Find(s.buffer, CLOSE);
      if end == -1 {
        assert Drain(s).0 == s;
      } else {
        DrainSettles(Scanner(s.buffer[end + |CLOSE|..], false));
        assert Drain(s) == Drain(Scanner(s.buffer[end + |CLOSE|..], false));
      }
    } else {
      var start := Find(s.buffer, OPEN);
      if start == -1 {
        assert Drain(s).0 == START;
      } else {
        DrainSettles(Scanner(s.buffer[start + |OPEN|..], true));
        assert Drain(s).0 == Drain(Scanner(s.buffer[start + |OPEN|..], true)).0;
      }
    }
  }

  // ---------------------------------------------------------------- the loops

  /** The body of the chunk loop; `out` is what it yields. */
  method ScanChunk(s: Scanner, delta: string) returns (next: Scanner, out: string)
    ensures (next, out) == Feed(s, delta)
  {
    var buffer, inThink := s.buffer + delta, s.inThink;
    out := "";
    Appended("", Feed(s, delta).1, "");
    while true
      invariant var r := Drain(Scanner(buffer, inThink)); (r.0, out + r.1) == Feed(s, delta)
      decreases |buffer|, if inThink then 0 else 1
    {
      if inThink {
        var end := Find(buffer, CLOSE);
        if end == -1 {
          assert out + "" == out;
          break;
        }
        buffer := buffer[end + |CLOSE|..];
        inThink := false;
      } else {
        var start := Find(buffer, OPEN);
        if start == -1 {
          out := out + buffer;
          buffer := "";
          break;
        }
        ghost var r := Drain(Scanner(buffer[start + |OPEN|..], true));
        Appended(out, buffer[..start], r.1);
        out := out + buffer[..start];
        buffer := buffer[start + |OPEN|..];
        inThink := true;
      }
    }
    next := Scanner(buffer, inThink);
  }

  method StreamComplete(chunks: seq<string>) returns (out: string)
    ensures out == Streamed(chunks)
  {
    var s := START;
    out := "";
    assert chunks[0..] == chunks;
    Appended("", FeedAll(START, chunks).1, "");
    for k := 0 to |chunks|
      invariant Settled(s)
      invariant var r := FeedAll(s, chunks[k..]); (r.0, out + r.1) == FeedAll(START, chunks)
    {
      assert chunks[k..][1..] == chunks[k + 1..];
      ghost var fed := Feed(s, chunks[k]);
      ghost var after := FeedAll(fed.0, chunks[k + 1..]);
      assert FeedAll(s, chunks[k..]) == (after.0, fed.1 + after.1);
      Appended(out, fed.1, after.1);
      DrainSettles(s.(buffer := s.buffer + chunks[k]));
      if chunks[k] != "" {
        var text;
        s, text := ScanChunk(s, chunks[k]);
        out := out + text;
      } else {
        assert s.buffer + chunks[k] == s.buffer;
        assert fed == (s, "");
        assert out + "" == out;
      }
    }
    if s.buffer != "" && !s.inThink {
      out := out + s.buffer;
    }
  }
}
