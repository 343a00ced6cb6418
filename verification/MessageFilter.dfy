/** desktop/lib/utils/message-filter.ts: which texts stay out of the conversation,
    and the bounded list of processed sequence numbers. */
module MessageFilter {
  import opened Text

  const MAX_PROCESSED_DELTAS: nat := 100

  predicate IsDiagnosticMessage(content: string) {
    StartsWith(content, "[Incomplete response:") || Contains(content, "Task budget at")
  }

  /** `^(task\s+)?(completed|done|success)\.?$` on an already lower-cased text. */
  predicate IsBareOutcome(s: string) {
    var t := if EndsWith(s, ".") then s[..|s| - 1] else s;
    var word := if |t| > 4 && t[..4] == "task" && IsSpace(t[4]) then TrimStart(t[4..]) else t;
    word in {"completed", "done", "success"}
  }

  predicate IsStatusMessage(content: string) {
    var trimmed := Trim(content);
    var lower := ToLower(trimmed);
    && |trimmed| < 100
    && (|| lower in {"done", "completed", "success", "all done"}
        || IsBareOutcome(lower)
        || Contains(lower, "task completed")
        || Contains(lower, "task done")
        || Contains(lower, "workflow completed")
        || Contains(lower, "successfully"))
  }

  /** The last n elements, or all of them: `slice(-n)`. */
  function LastN<T>(n: nat, s: seq<T>): seq<T> {
    if |s| <= n then s else s[|s| - n..]
  }

  function CapProcessedDeltas(deltas: seq<int>, newSeq: int): seq<int> {
    LastN(MAX_PROCESSED_DELTAS, deltas + [newSeq])
  }
}
