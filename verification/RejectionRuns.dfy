/** The rejection-pattern detector (api/src/anomaly-detection/evaluate.ts): one pass over the tool calls
    of all sessions, counting consecutive failures. The rows arrive ordered by session.
    Whether an output text mentions "error" in any case is an input. */
module RejectionRuns {
  import opened Basics

  const MIN_RUN: nat := 3

  datatype ToolCall = ToolCall(
    sessionId: string, status: Option<string>, error: Option<string>, outputMentionsError: bool,
    agentId: string, model: string)

  datatype Pattern = Pattern(consecutive: nat, sessionId: string, agentId: string, model: string)

  predicate IsFailure(c: ToolCall) {
    c.status == Some("error") || (c.error.Some? && c.error.value != "") || c.outputMentionsError
  }

  /** The rows of one session stand together. */
  ghost predicate Grouped(rows: seq<ToolCall>) {
    forall i, j, k :: 0 <= i < j < k < |rows| && rows[i].sessionId == rows[k].sessionId
      ==> rows[j].sessionId == rows[i].sessionId
  }

  // ----- What a run is -----

  /** A tool call failed if it says so, carries an error text, or its output speaks of an error. */
  ghost predicate Failed(c: ToolCall) {
    || c.status == Some("error")
    || (exists text :: c.error == Some(text) && |text| > 0)
    || c.outputMentionsError
  }

  ghost predicate LastRowOf(rows: seq<ToolCall>, s: string, k: nat) {
    k < |rows| && rows[k].sessionId == s && forall j :: k < j < |rows| ==> rows[j].sessionId != s
  }

  /** The pattern names its session, and the agent and model of that session's last row. */
  ghost predicate SpeaksFor(rows: seq<ToolCall>, s: string, p: Pattern) {
    p.sessionId == s && exists k: nat :: LastRowOf(rows, s, k) && p.agentId == rows[k].agentId && p.model == rows[k].model
  }

  /** Rows `from` up to `from + n` are failures of session `s`. */
  ghost predicate IsRun(rows: seq<ToolCall>, s: string, from: int, n: int) {
    && 0 <= from && 0 <= n && from + n <= |rows|
    && forall k :: from <= k < from + n ==> rows[k].sessionId == s && Failed(rows[k])
  }

  ghost predicate HasRun(rows: seq<ToolCall>, s: string, n: nat) {
    exists from: int :: IsRun(rows, s, from, n)
  }

  // ----- The counters of the loop, as functions of the rows seen -----

  /** `consecutiveFailures` after the rows. */
  function Trailing(rows: seq<ToolCall>): nat
    decreases |rows|
  {
    if rows == [] then 0
    else
      var k := |rows| - 1;
      if !IsFailure(rows[k]) then 0
      else if k > 0 && rows[k - 1].sessionId == rows[k].sessionId then 1 + Trailing(rows[..k])
      else 1
  }

  function Longest(rows: seq<ToolCall>, s: string): nat
    decreases |rows|
  {
    if rows == [] then 0
    else
      var k := |rows| - 1;
      var before := Longest(rows[..k], s);
      if rows[k].sessionId == s && Trailing(rows) > before then Trailing(rows) else before
  }

  /** The row that speaks for a session: its last. */
  function LastOf(rows: seq<ToolCall>, s: string): Option<ToolCall>
    decreases |rows|
  {
    if rows == [] then None
    else if rows[|rows| - 1].sessionId == s then Some(rows[|rows| - 1])
    else LastOf(rows[..|rows| - 1], s)
  }

  lemma {:induction false} LastOfIs(rows: seq<ToolCall>, s: string) returns (k: nat)
    requires LastOf(rows, s).Some?
    ensures LastRowOf(rows, s, k) && LastOf(rows, s) == Some(rows[k])
    decreases |rows|
  {
    k := |rows| - 1;
    if rows[k].sessionId != s {
      k := LastOfIs(rows[..k], s);
    }
  }

  lemma {:induction false} TrailingIsRun(rows: seq<ToolCall>, n: nat)
    requires rows != []
    ensures n <= Trailing(rows) <==> IsRun(rows, rows[|rows| - 1].sessionId, |rows| - n, n)
    decreases |rows|
  {
    var k := |rows| - 1;
    var s := rows[k].sessionId;
    if n == 0 || !IsFailure(rows[k]) {
    } else if k > 0 && rows[k - 1].sessionId == s {
      TrailingIsRun(rows[..k], n - 1);
      var before := rows[..k];
      if IsRun(before, s, k - (n - 1), n - 1) {
        forall j | |rows| - n <= j < |rows| ensures rows[j].sessionId == s && IsFailure(rows[j]) {
          if j < k {
            assert before[j] == rows[j];
          }
        }
      }
    }
  }

  /** `Longest` is the longest run there is. */
  lemma {:induction false} LongestIsLongest(rows: seq<ToolCall>, s: string, n: nat)
    ensures n <= Longest(rows, s) <==> HasRun(rows, s, n)
    decreases |rows|
  {
    if n == 0 {
      assert IsRun(rows, s, 0, 0);
    } else if rows != [] {
      var k := |rows| - 1;
      LongestIsLongest(rows[..k], s, n);
      TrailingIsRun(rows, n);
      if HasRun(rows[..k], s, n) {
        var from: int :| IsRun(rows[..k], s, from, n);
        assert IsRun(rows, s, from, n);
      }
      if HasRun(rows, s, n) {
        var from: int :| IsRun(rows, s, from, n);
        if from + n <= k {
          assert IsRun(rows[..k], s, from, n);
        } else {
          assert rows[k].sessionId == s;
        }
      }
    }
  }

  /** Once the session changes, the new one has not been seen before. */
  lemma ChangeIsFinal(rows: seq<ToolCall>, i: nat)
    requires Grouped(rows) && i < |rows| && (i > 0 ==> rows[i - 1].sessionId != rows[i].sessionId)
    ensures forall j :: 0 <= j < i ==> rows[..i][j].sessionId != rows[i].sessionId
  {
    if i > 0 {
      var last := rows[i - 1].sessionId;
      assert forall j :: 0 <= j < i - 1 && rows[j].sessionId == rows[i].sessionId ==> last == rows[j].sessionId;
    }
  }

  lemma {:induction false} NewSession(rows: seq<ToolCall>, s: string)
    requires forall i :: 0 <= i < |rows| ==> rows[i].sessionId != s
    ensures Longest(rows, s) == 0 && LastOf(rows, s).None?
    decreases |rows|
  {
    if rows != [] {
      NewSession(rows[..|rows| - 1], s);
    }
  }

  // ----- The one-pass loop -----

  /** The recorded sessions are those whose longest run is at least 3, each with that run and its last row. */
  ghost predicate Records(found: map<string, Pattern>, rows: seq<ToolCall>) {
    forall s ::
      && (s in found <==> Longest(rows, s) >= MIN_RUN)
      && (s in found ==> LastOf(rows, s).Some? && found[s] == PatternOf(rows, s, Longest(rows, s)))
  }

  function PatternOf(rows: seq<ToolCall>, s: string, consecutive: nat): Pattern
    requires LastOf(rows, s).Some?
  {
    Pattern(consecutive, s, LastOf(rows, s).value.agentId, LastOf(rows, s).value.model)
  }

  lemma RecordStep(found: map<string, Pattern>, rows: seq<ToolCall>, tc: ToolCall)
    requires Records(found, rows)
    ensures var more := rows + [tc];
            var longest := Longest(more, tc.sessionId);
            Records(if longest >= MIN_RUN
                    then found[tc.sessionId := Pattern(longest, tc.sessionId, tc.agentId, tc.model)] else found, more)
  {
    var more := rows + [tc];
    assert more[..|rows|] == rows;
    var longest := Longest(more, tc.sessionId);
    var next := if longest >= MIN_RUN
                then found[tc.sessionId := Pattern(longest, tc.sessionId, tc.agentId, tc.model)] else found;
    forall s ensures
      && (s in next <==> Longest(more, s) >= MIN_RUN)
      && (s in next ==> LastOf(more, s).Some? && next[s] == PatternOf(more, s, Longest(more, s)))
    {
      assert s in found <==> Longest(rows, s) >= MIN_RUN;
    }
  }

  method DetectRejectionPatterns(rows: seq<ToolCall>) returns (found: map<string, Pattern>)
    requires Grouped(rows)
    ensures forall s :: s in found <==> HasRun(rows, s, 3)
    ensures forall s :: s in found ==>
              && HasRun(rows, s, found[s].consecutive) && !HasRun(rows, s, found[s].consecutive + 1)
              && SpeaksFor(rows, s, found[s])
  {
    hide HasRun, LastOf, SpeaksFor, Records, PatternOf, Grouped;
    NothingRecorded();
    found := map[];
    var currentSessionId, consecutiveFailures, maxConsecutive: nat := "", 0, 0;
    for i := 0 to |rows|
      invariant i > 0 ==> currentSessionId == rows[i - 1].sessionId
      invariant i == 0 ==> currentSessionId == ""
      invariant consecutiveFailures == Trailing(rows[..i]) && maxConsecutive == Longest(rows[..i], currentSessionId)
      invariant Records(found, rows[..i])
    {
      var tc := rows[i];
      ghost var before := rows[..i];
      assert rows[..i + 1] == before + [tc] && (before + [tc])[..i] == before;
      if tc.sessionId != currentSessionId {
        ChangeIsFinal(rows, i);
        NewSession(before, tc.sessionId);
        currentSessionId := tc.sessionId;
        consecutiveFailures := 0;
        maxConsecutive := 0;
      }
      if IsFailure(tc) {
        consecutiveFailures := consecutiveFailures + 1;
        maxConsecutive := if consecutiveFailures > maxConsecutive then consecutiveFailures else maxConsecutive;
      } else {
        consecutiveFailures := 0;
      }
      RecordStep(found, before, tc);
      if maxConsecutive >= MIN_RUN {
        found := found[tc.sessionId := Pattern(maxConsecutive, tc.sessionId, tc.agentId, tc.model)];
      }
    }
    assert rows[..|rows|] == rows;
    RecordsMeans(found, rows);
    if currentSessionId != "" && maxConsecutive >= MIN_RUN {
      var lastTc := rows[|rows| - 1];
      ClosingStepChangesNothing(found, rows);
      found := found[currentSessionId := Pattern(maxConsecutive, currentSessionId, lastTc.agentId, lastTc.model)];
    }
  }

  lemma NothingRecorded()
    ensures Records(map[], [])
  {}

  /** What the recorded map says in terms of runs. */
  lemma RecordsMeans(found: map<string, Pattern>, rows: seq<ToolCall>)
    requires Records(found, rows)
    ensures forall s :: s in found <==> HasRun(rows, s, MIN_RUN)
    ensures forall s :: s in found ==>
              && HasRun(rows, s, found[s].consecutive) && !HasRun(rows, s, found[s].consecutive + 1)
              && SpeaksFor(rows, s, found[s])
  {
    hide HasRun, LastOf, LastRowOf, Longest;
    forall s ensures s in found <==> HasRun(rows, s, MIN_RUN)
             ensures s in found ==> HasRun(rows, s, found[s].consecutive) && !HasRun(rows, s, found[s].consecutive + 1)
             ensures s in found ==> SpeaksFor(rows, s, found[s])
    {
      LongestIsLongest(rows, s, MIN_RUN);
      if s in found {
        LongestIsLongest(rows, s, found[s].consecutive);
        LongestIsLongest(rows, s, found[s].consecutive + 1);
        var k := LastOfIs(rows, s);
      }
    }
  }

  /** The step after the loop records what the loop has recorded already. */
  lemma ClosingStepChangesNothing(found: map<string, Pattern>, rows: seq<ToolCall>)
    requires Records(found, rows) && rows != []
    ensures var last := rows[|rows| - 1];
            var longest := Longest(rows, last.sessionId);
            longest >= MIN_RUN ==>
              found[last.sessionId := Pattern(longest, last.sessionId, last.agentId, last.model)] == found
  {
    LastIsLast(rows);
    var last := rows[|rows| - 1];
    if Longest(rows, last.sessionId) >= MIN_RUN {
      assert last.sessionId in found;
    }
  }

  lemma LastIsLast(rows: seq<ToolCall>)
    requires rows != []
    ensures LastOf(rows, rows[|rows| - 1].sessionId) == Some(rows[|rows| - 1])
  {}
}
