/**
 * The recap formatter: a recap is shown twice, as a few human-readable lines
 * joined with "\n" and as the recap's own dump.
 */
module RecapFormatter {
  import opened PyValues
  import opened Text
  import opened Schema

  /** The emoji each line starts with. */
  const SessionMark := '\U{1F4CC}'
  const FinalMark := '\U{2705}'
  const NoFinalMark := '\U{26A0}'
  const RejectedMark := '\U{274C}'
  const AhaMark := '\U{1F4A1}'
  const FlagsMark := '\U{1F3F7}'

  function SessionLine(sessionId: string): string {
    [SessionMark] + " Session ID: " + sessionId
  }

  const FinalLine := [FinalMark] + " Final snippet selected"
  const NoFinalLine := [NoFinalMark, '\U{FE0F}'] + " No final snippet found"

  function RejectedLine(count: nat): string {
    [RejectedMark] + " " + NatToString(count) + " rejected versions"
  }

  function AhaLine(aha: seq<string>): string {
    [AhaMark] + " Aha moments: " + Join(", ", aha)
  }

  function FlagsLine(flags: seq<string>): string {
    [FlagsMark] + " Flags: " + Join(", ", flags)
  }

  function BuiltLine(summary: string): string {
    [SessionMark] + " What You Built: " + summary
  }

  /** A final snippet counts as selected only when it has some content. */
  predicate HasFinal(data: Recap) {
    data.final.Some? && data.final.value.content != ""
  }

  /** `line` starts with the emoji `mark`. */
  predicate Marked(line: string, mark: char) {
    line != [] && line[0] == mark
  }

  /**
   * The human-readable lines: the session, whether a final snippet was
   * selected, then the rejected count, the aha moments and the flags when
   * there are any, and the summary last.
   */
  function HumanLines(data: Recap): (lines: seq<string>)
    ensures 3 <= |lines| <= 6
    ensures |lines| == 3 + (if data.rejectedVersions != [] then 1 else 0)
      + (if data.ahaMoments != [] then 1 else 0) + (if data.qualityFlags != [] then 1 else 0)
    ensures lines[0] == SessionLine(data.sessionId)
    ensures lines[1] == if HasFinal(data) then FinalLine else NoFinalLine
    ensures data.rejectedVersions != [] ==> lines[2] == RejectedLine(|data.rejectedVersions|)
    ensures data.qualityFlags != [] ==> lines[|lines| - 2] == FlagsLine(data.qualityFlags)
    ensures lines[|lines| - 1] == BuiltLine(data.summary)
  {
    [SessionLine(data.sessionId), if HasFinal(data) then FinalLine else NoFinalLine]
    + (if data.rejectedVersions != [] then [RejectedLine(|data.rejectedVersions|)] else [])
    + (if data.ahaMoments != [] then [AhaLine(data.ahaMoments)] else [])
    + (if data.qualityFlags != [] then [FlagsLine(data.qualityFlags)] else [])
    + [BuiltLine(data.summary)]
  }

  /** The dict `format_recap` returns. */
  datatype Formatted = Formatted(humanReadable: string, rawJson: map<string, Value>)

  /**
   * `format_recap`: the human-readable lines, appended one by one and joined
   * with "\n", and the recap's dump unchanged.
   */
  method FormatRecap(data: Recap) returns (r: Formatted)
    ensures r.humanReadable == Join("\n", HumanLines(data))
    ensures r.rawJson == DumpRecap(data)
  {
    var human: seq<string> := [];
    human := human + [SessionLine(data.sessionId)];
    if data.final.Some? && data.final.value.content != "" {
      human := human + [FinalLine];
    } else {
      human := human + [NoFinalLine];
    }
    ghost var expected := [SessionLine(data.sessionId), if HasFinal(data) then FinalLine else NoFinalLine];
    assert human == expected;
    if data.rejectedVersions != [] {
      human := human + [RejectedLine(|data.rejectedVersions|)];
    }
    expected := expected + (if data.rejectedVersions != [] then [RejectedLine(|data.rejectedVersions|)] else []);
    assert human == expected;
    if data.ahaMoments != [] {
      human := human + [AhaLine(data.ahaMoments)];
    }
    expected := expected + (if data.ahaMoments != [] then [AhaLine(data.ahaMoments)] else []);
    assert human == expected;
    if data.qualityFlags != [] {
      human := human + [FlagsLine(data.qualityFlags)];
    }
    expected := expected + (if data.qualityFlags != [] then [FlagsLine(data.qualityFlags)] else []);
    assert human == expected;
    human := human + [BuiltLine(data.summary)];
    assert human == HumanLines(data);
    return Formatted(Join("\n", human), DumpRecap(data));
  }

  /** Every line starts with its own emoji, so no two kinds of line coincide. */
  lemma LineMarks(data: Recap)
    ensures Marked(SessionLine(data.sessionId), SessionMark)
    ensures Marked(FinalLine, FinalMark) && Marked(NoFinalLine, NoFinalMark)
    ensures Marked(RejectedLine(|data.rejectedVersions|), RejectedMark)
    ensures Marked(AhaLine(data.ahaMoments), AhaMark)
    ensures Marked(FlagsLine(data.qualityFlags), FlagsMark)
    ensures Marked(BuiltLine(data.summary), SessionMark)
  {
  }

  /**
   * The third line is the rejected count exactly when some version was
   * rejected, and the line before the last is the flags exactly when there
   * are flags.
   */
  lemma OptionalLinesPresence(data: Recap)
    ensures HumanLines(data)[2] == RejectedLine(|data.rejectedVersions|) <==> data.rejectedVersions != []
    ensures HumanLines(data)[|HumanLines(data)| - 2] == FlagsLine(data.qualityFlags) <==> data.qualityFlags != []
    ensures data.ahaMoments != [] ==>
      HumanLines(data)[if data.rejectedVersions != [] then 3 else 2] == AhaLine(data.ahaMoments)
  {
    LineMarks(data);
  }

  lemma NumberHasNoLineBreak(n: nat)
    ensures NoLineBreak(NatToString(n))
  {
  }

  /** The fixed text of the session and summary lines holds no line boundary. */
  lemma SessionTextHasNoBreak()
    ensures NoLineBreak([SessionMark] + " Session ID: ")
    ensures NoLineBreak([SessionMark] + " What You Built: ")
  {
  }

  /** Neither verdict line holds a line boundary. */
  lemma VerdictLinesHaveNoBreak()
    ensures NoLineBreak(FinalLine)
    ensures NoLineBreak(NoFinalLine)
  {
  }

  /** The fixed text of the count, aha and flags lines holds no line boundary. */
  lemma ListTextHasNoBreak()
    ensures NoLineBreak([RejectedMark] + " ") && NoLineBreak(" rejected versions")
    ensures NoLineBreak([AhaMark] + " Aha moments: ") && NoLineBreak([FlagsMark] + " Flags: ")
  {
  }

  /** No line holds a boundary when the recap's own text holds none. */
  lemma LinesHaveNoBreak(data: Recap)
    requires NoLineBreak(data.sessionId) && NoLineBreak(data.summary)
    requires NoLineBreak(Join(", ", data.ahaMoments)) && NoLineBreak(Join(", ", data.qualityFlags))
    ensures forall i :: 0 <= i < |HumanLines(data)| ==> NoLineBreak(HumanLines(data)[i])
  {
    SessionTextHasNoBreak();
    VerdictLinesHaveNoBreak();
    ListTextHasNoBreak();
    NoLineBreakConcat([SessionMark] + " Session ID: ", data.sessionId);
    NumberHasNoLineBreak(|data.rejectedVersions|);
    NoLineBreakConcat([RejectedMark] + " ", NatToString(|data.rejectedVersions|));
    NoLineBreakConcat([RejectedMark] + " " + NatToString(|data.rejectedVersions|), " rejected versions");
    NoLineBreakConcat([AhaMark] + " Aha moments: ", Join(", ", data.ahaMoments));
    NoLineBreakConcat([FlagsMark] + " Flags: ", Join(", ", data.qualityFlags));
    NoLineBreakConcat([SessionMark] + " What You Built: ", data.summary);
    var lines := HumanLines(data);
    assert forall l :: l in lines ==> NoLineBreak(l);
  }

  /**
   * When no session id, summary, aha moment or flag holds a line boundary,
   * splitting the human-readable text into lines gives back exactly the
   * lines it was joined from.
   */
  lemma HumanReadableSplitsBack(data: Recap)
    requires NoLineBreak(data.sessionId) && NoLineBreak(data.summary)
    requires forall i :: 0 <= i < |data.ahaMoments| ==> NoLineBreak(data.ahaMoments[i])
    requires forall i :: 0 <= i < |data.qualityFlags| ==> NoLineBreak(data.qualityFlags[i])
    ensures SplitLines(Join("\n", HumanLines(data))) == HumanLines(data)
  {
    assert NoLineBreak(", ");
    JoinHasNoLineBreak(", ", data.ahaMoments);
    JoinHasNoLineBreak(", ", data.qualityFlags);
    LinesHaveNoBreak(data);
    LineMarks(data);
    SplitLinesOfJoin(HumanLines(data));
  }
}
