/** The business-insight memo: the text the memo resource serves, rendered
    from the insights appended so far. */
module InsightMemo {
  import opened Text

  const NO_INSIGHTS := "目前尚未发现任何业务洞察。"
  const TITLE := "📊 业务洞察备忘录 📊"
  const FINDINGS_HEADING := "关键洞察发现："
  const SUMMARY_HEADING := "总结："
  const SUMMARY_OPENING := "分析揭示了"
  const SUMMARY_CLOSING := "个关键业务洞察，这些洞察为业务战略优化和增长提供了机会。"

  /** One `- <insight>` line per insight, in insertion order. */
  function Bullets(insights: seq<string>): (lines: seq<string>)
    ensures |lines| == |insights|
    ensures forall i :: 0 <= i < |insights| ==> lines[i] == "- " + insights[i]
  {
    seq(|insights|, i requires 0 <= i < |insights| => "- " + insights[i])
  }

  /** The closing sentence that states how many insights there are. */
  function SummaryLine(n: nat): string {
    SUMMARY_OPENING + Decimal(n) + SUMMARY_CLOSING
  }

  /** What follows the heading: the bullet lines and, for more than one
      insight, the summary heading and sentence. */
  function Body(insights: seq<string>): string {
    var bullets := Join(Bullets(insights), '\n');
    if |insights| > 1 then bullets + "\n" + SUMMARY_HEADING + "\n" + SummaryLine(|insights|)
    else bullets
  }

  /** `_synthesize_memo`: a fixed sentence when there are no insights;
      otherwise the title, the heading, the bullet lines and, for more than
      one insight, a summary naming the count. */
  function Render(insights: seq<string>): (memo: string)
    ensures memo == NO_INSIGHTS <==> insights == []
    ensures insights != [] ==> StartsWith(memo, TITLE + "\n\n")
  {
    if insights == [] then NO_INSIGHTS
    else
      var memo := TITLE + "\n\n" + FINDINGS_HEADING + "\n\n" + Body(insights);
      assert memo[0] == TITLE[0];
      memo
  }

  /** Read line by line, a memo of any insights is the title, a blank line,
      the heading, a blank line, the lines of the bullet block and, only for
      two or more insights, the summary heading and the summary sentence. */
  lemma RenderLines(insights: seq<string>)
    requires insights != []
    ensures Split(Render(insights), '\n')
            == [TITLE, "", FINDINGS_HEADING, ""] + Split(Join(Bullets(insights), '\n'), '\n')
               + (if |insights| > 1 then [SUMMARY_HEADING, SummaryLine(|insights|)] else [])
  {
    HeaderLines(Body(insights));
    BodyLines(insights);
  }

  /** When no insight contains a line break, the bullet block contributes
      exactly one `- ` line per insight, in insertion order. */
  lemma RenderLinesOneBulletEach(insights: seq<string>)
    requires insights != []
    requires forall i :: 0 <= i < |insights| ==> '\n' !in insights[i]
    ensures Split(Render(insights), '\n')
            == [TITLE, "", FINDINGS_HEADING, ""] + Bullets(insights)
               + (if |insights| > 1 then [SUMMARY_HEADING, SummaryLine(|insights|)] else [])
  {
    RenderLines(insights);
    BulletLines(insights);
  }

  /** The body splits into the lines of the bullet block and, for two or
      more insights, the summary's two lines. */
  lemma BodyLines(insights: seq<string>)
    requires insights != []
    ensures Split(Body(insights), '\n')
            == Split(Join(Bullets(insights), '\n'), '\n')
               + (if |insights| > 1 then [SUMMARY_HEADING, SummaryLine(|insights|)] else [])
  {
    if |insights| > 1 {
      SummaryAfter(Join(Bullets(insights), '\n'), |insights|);
    }
  }

  /** Appending the summary to a block adds exactly its two lines. */
  lemma SummaryAfter(block: string, n: nat)
    ensures Split(block + "\n" + SUMMARY_HEADING + "\n" + SummaryLine(n), '\n')
            == Split(block, '\n') + [SUMMARY_HEADING, SummaryLine(n)]
  {
    var rest := SUMMARY_HEADING + "\n" + SummaryLine(n);
    SummaryLines(n);
    SplitAppend(block, rest, '\n');
    assert block + "\n" + SUMMARY_HEADING + "\n" + SummaryLine(n) == block + ['\n'] + rest;
  }

  /** The bullet block splits back into its bullets. */
  lemma BulletLines(insights: seq<string>)
    requires insights != []
    requires forall i :: 0 <= i < |insights| ==> '\n' !in insights[i]
    ensures Split(Join(Bullets(insights), '\n'), '\n') == Bullets(insights)
  {
    var bullets := Bullets(insights);
    forall i | 0 <= i < |bullets| ensures '\n' !in bullets[i] {
      assert bullets[i] == "- " + insights[i];
    }
    SplitJoin(bullets, '\n');
  }

  /** The summary contributes its heading and its sentence as two lines. */
  lemma SummaryLines(n: nat)
    ensures Split(SUMMARY_HEADING + "\n" + SummaryLine(n), '\n') == [SUMMARY_HEADING, SummaryLine(n)]
  {
    SummaryHasNoLineBreak(n);
    SplitWithoutSep(SummaryLine(n), '\n');
    LeadingLine(SUMMARY_HEADING, SummaryLine(n));
  }

  /** A line without a line break, followed by a line break, is the first
      line. */
  lemma LeadingLine(line: string, rest: string)
    requires '\n' !in line
    ensures Split(line + "\n" + rest, '\n') == [line] + Split(rest, '\n')
  {
    SplitWithoutSep(line, '\n');
    SplitAppend(line, rest, '\n');
  }

  /** The memo's header contributes the title, a blank line, the heading
      and a blank line. */
  lemma HeaderLines(body: string)
    ensures Split(TITLE + "\n\n" + FINDINGS_HEADING + "\n\n" + body, '\n')
            == [TITLE, "", FINDINGS_HEADING, ""] + Split(body, '\n')
  {
    var tail := FINDINGS_HEADING + "\n\n" + body;
    LineThenBlank(FINDINGS_HEADING, body);
    LineThenBlank(TITLE, tail);
    assert TITLE + "\n\n" + FINDINGS_HEADING + "\n\n" + body == TITLE + "\n\n" + tail;
  }

  /** A line followed by an empty line contributes both. */
  lemma LineThenBlank(line: string, rest: string)
    requires '\n' !in line
    ensures Split(line + "\n\n" + rest, '\n') == [line, ""] + Split(rest, '\n')
  {
    var s1 := "" + "\n" + rest;
    LeadingLine("", rest);
    LeadingLine(line, s1);
    assert line + "\n\n" + rest == line + "\n" + s1;
  }

  lemma SummaryHasNoLineBreak(n: nat)
    ensures '\n' !in SummaryLine(n)
  {
    var d := Decimal(n);
    assert '\n' !in d by {
      forall i | 0 <= i < |d| ensures d[i] != '\n' {
        assert IsDigit(d[i]);
      }
    }
  }

  /** The summary sentence names the count: the digits between its fixed
      opening and closing denote `n`. */
  lemma SummaryNamesCount(n: nat)
    ensures var line := SummaryLine(n);
            |SUMMARY_OPENING| + |SUMMARY_CLOSING| < |line|
            && line[..|SUMMARY_OPENING|] == SUMMARY_OPENING
            && line[|line| - |SUMMARY_CLOSING|..] == SUMMARY_CLOSING
            && AllDigits(line[|SUMMARY_OPENING|..|line| - |SUMMARY_CLOSING|])
            && DecimalValue(line[|SUMMARY_OPENING|..|line| - |SUMMARY_CLOSING|]) == n
  {
    var line := SummaryLine(n);
    assert line[|SUMMARY_OPENING|..|line| - |SUMMARY_CLOSING|] == Decimal(n);
  }
}
