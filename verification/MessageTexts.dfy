/** Which completed texts are mere status messages. */
module MessageTexts {
  import opened Text
  import opened MessageFilter

  predicate Outcome(word: string) { word == "completed" || word == "done" || word == "success" }

  predicate AllSpaces(s: string) { forall k :: 0 <= k < |s| ==> IsSpace(s[k]) }

  /** Nothing, or "task" and white space. */
  predicate TaskPrefix(pre: string) { pre == "" || (|pre| > 4 && pre[..4] == "task" && AllSpaces(pre[4..])) }

  /** The expression `(task\s+)?(completed|done|success)\.?` over the whole text. */
  ghost predicate BareOutcome(s: string) {
    exists pre: string, word: string ::
      TaskPrefix(pre) && Outcome(word) && (s == pre + word || s == pre + word + ".")
  }

  lemma {:induction false} SpacesTrimmed(spaces: string, word: string)
    requires AllSpaces(spaces) && word != "" && !IsSpace(word[0])
    ensures TrimStart(spaces + word) == word
  {
    if spaces == "" {
      assert spaces + word == word;
    } else {
      assert (spaces + word)[1..] == spaces[1..] + word;
      SpacesTrimmed(spaces[1..], word);
    }
  }

  lemma {:induction false} TrimmedSpaces(s: string) returns (spaces: string)
    ensures AllSpaces(spaces) && s == spaces + TrimStart(s)
  {
    if s != "" && IsSpace(s[0]) {
      var more := TrimmedSpaces(s[1..]);
      spaces := [s[0]] + more;
      assert s == [s[0]] + s[1..];
    } else {
      spaces := "";
    }
  }

  lemma OutcomeEnds(word: string)
    requires Outcome(word)
    ensures word != "" && !IsSpace(word[0]) && word[|word| - 1] != '.'
    ensures |word| > 4 ==> word[..4] != "task"
  {
    assert "completed"[0] == 'c' && "done"[0] == 'd' && "success"[0] == 's';
    assert "completed"[1] == 'o' && "success"[1] == 'u' && "task"[1] == 'a';
    if |word| > 4 { assert word[..4][1] == word[1] != "task"[1]; }
  }

  /** The text before the optional full stop. */
  function Stem(s: string): string { if EndsWith(s, ".") then s[..|s| - 1] else s }

  lemma StemOf(pre: string, word: string)
    requires Outcome(word)
    ensures Stem(pre + word) == Stem(pre + word + ".") == pre + word
  {
    OutcomeEnds(word);
    var s := pre + word;
    assert s[|s| - 1] == word[|word| - 1];
    assert s[|s| - 1..][0] != "."[0];
    assert (s + ".")[|s|..] == "." && (s + ".")[..|s|] == s;
  }

  lemma StemIs(s: string)
    ensures s == Stem(s) || s == Stem(s) + "."
  {
    if EndsWith(s, ".") { assert s == s[..|s| - 1] + s[|s| - 1..]; }
  }

  /** What is compared with the three words. */
  function Core(t: string): string {
    if |t| > 4 && t[..4] == "task" && IsSpace(t[4]) then TrimStart(t[4..]) else t
  }

  lemma CoreOf(pre: string, word: string)
    requires TaskPrefix(pre) && Outcome(word)
    ensures Core(pre + word) == word
  {
    OutcomeEnds(word);
    var t := pre + word;
    if pre == "" {
      assert t == word;
    } else {
      assert t[..4] == pre[..4] && t[4] == pre[4..][0];
      assert t[4..] == pre[4..] + word;
      SpacesTrimmed(pre[4..], word);
    }
  }

  lemma CoreFrom(t: string) returns (pre: string)
    requires Outcome(Core(t))
    ensures TaskPrefix(pre) && t == pre + Core(t)
  {
    if |t| > 4 && t[..4] == "task" && IsSpace(t[4]) {
      var spaces := TrimmedSpaces(t[4..]);
      pre := "task" + spaces;
      assert t == t[..4] + t[4..] == "task" + (spaces + Core(t)) == pre + Core(t);
      SomeSpace(t[4..], spaces);
      assert pre[..4] == "task" && pre[4..] == spaces;
    } else {
      pre := "";
    }
  }

  lemma SomeSpace(s: string, spaces: string)
    requires s != "" && IsSpace(s[0]) && s == spaces + TrimStart(s) && Outcome(TrimStart(s))
    ensures spaces != ""
  {
    OutcomeEnds(TrimStart(s));
    assert spaces == "" ==> s == TrimStart(s);
  }

  lemma BareOutcomeIs(s: string)
    ensures IsBareOutcome(s) <==> BareOutcome(s)
  {
    if BareOutcome(s) {
      var pre: string, word: string :| TaskPrefix(pre) && Outcome(word) && (s == pre + word || s == pre + word + ".");
      StemOf(pre, word);
      CoreOf(pre, word);
    }
    if IsBareOutcome(s) {
      StemIs(s);
      var pre := CoreFrom(Stem(s));
      assert TaskPrefix(pre) && Outcome(Core(Stem(s)));
    }
  }

  /** A completed text is a mere status exactly when, trimmed and in lower case, it is shorter than a hundred
      characters and is one of the bare outcomes or contains one of the stock phrases. */
  lemma StatusMessageIs(content: string)
    ensures var s := ToLower(Trim(content));
            IsStatusMessage(content) <==>
              |s| < 100
              && (s == "all done" || BareOutcome(s) || Contains(s, "task completed") || Contains(s, "task done")
                  || Contains(s, "workflow completed") || Contains(s, "successfully"))
  {
    var s := ToLower(Trim(content));
    BareOutcomeIs(s);
    if Outcome(s) { assert s == "" + s && TaskPrefix(""); }
  }

  /** Lower case changes the capital letters A to Z, each to its small letter, and nothing else. */
  lemma LowerIs(s: string)
    ensures |ToLower(s)| == |s|
    ensures forall i :: 0 <= i < |s| ==>
              if 'A' <= s[i] <= 'Z' then ToLower(s)[i] as int - 'a' as int == s[i] as int - 'A' as int
              else ToLower(s)[i] == s[i]
  {
  }

  /** White space: tab to carriage return, space, no-break space, the byte order mark, the line and paragraph
      separators, and the category of space separators. */
  lemma SpacesAre(c: char)
    ensures IsSpace(c) <==> c as int in {9, 10, 11, 12, 13, 32, 160, 65279, 8232, 8233, 5760, 8192, 8193, 8194, 8195,
                                         8196, 8197, 8198, 8199, 8200, 8201, 8202, 8239, 8287, 12288}
  {
  }

  /** A text is diagnostic exactly when it starts or contains as the two notices do. */
  lemma DiagnosticIs(content: string)
    ensures IsDiagnosticMessage(content)
       <==> (|content| >= 21 && content[..21] == "[Incomplete response:") || Contains(content, "Task budget at")
  {
  }

  predicate At(s: string, i: int, p: string) { 0 <= i <= |s| - |p| && s[i..i + |p|] == p }

  /** Containing is having it at some place. */
  lemma {:induction false} ContainsIs(s: string, p: string)
    ensures Contains(s, p) <==> exists i :: At(s, i, p)
  {
    if StartsWith(s, p) { assert At(s, 0, p); }
    if s != "" {
      ContainsIs(s[1..], p);
      forall i ensures At(s[1..], i, p) ==> At(s, i + 1, p) {
        if At(s[1..], i, p) { assert s[i + 1..i + 1 + |p|] == s[1..][i..i + |p|]; }
      }
      forall i ensures At(s, i, p) && i > 0 ==> At(s[1..], i - 1, p) {
        if At(s, i, p) && i > 0 { assert s[1..][i - 1..i - 1 + |p|] == s[i..i + |p|]; }
      }
    }
    if i :| At(s, i, p) {
      if i == 0 { assert s[..|p|] == p; }
    }
  }
}
