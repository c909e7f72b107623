/**
  * Turning the language model's raw reply into the list of interview questions returned by
  * `/generate-questions`: one candidate per line, short lines dropped, a leading
  * enumeration such as `3.` removed, and one fixed question when nothing survives.
  */
module Questions {
  import opened Text

  const FallbackQuestion := "Could you walk me through your relevant experience for this role?"

  /** A trimmed line must be longer than this to be kept. */
  const MinQuestionLength := 10

  /** The enumeration's `.` must lie among this many leading characters. */
  const EnumerationWindow := 5

  /** `line = line.strip()` followed by `if line and len(line) > 10`. */
  predicate Kept(line: string) {
    var t := Strip(line);
    t != [] && |t| > MinQuestionLength
  }

  /** `line[0].isdigit() and '.' in line[:5]` */
  predicate Enumerated(t: string) {
    t != [] && IsAsciiDigit(t[0])
    && '.' in t[..if |t| < EnumerationWindow then |t| else EnumerationWindow]
  }

  /** `line.split('.', 1)[1].strip()` */
  function DropEnumeration(t: string): string
    requires Enumerated(t)
  {
    Strip(AfterFirst(t, '.'))
  }

  /**
    * The question a kept line contributes: the trimmed line itself when it is not
    * enumerated, otherwise a shorter text; never empty, never with surrounding whitespace.
    */
  function Question(line: string): (q: string)
    requires Kept(line)
    ensures q != [] && !IsSpace(q[0]) && !IsSpace(q[|q| - 1])
    ensures !Enumerated(Strip(line)) ==> q == Strip(line)
    ensures Enumerated(Strip(line)) ==> |q| < |Strip(line)|
  {
    var t := Strip(line);
    if Enumerated(t) then
      EnumerationBounds(t);
      DropEnumeration(t)
    else t
  }

  /**
    * In a kept, enumerated line the first `.` sits at positions 1 to 4, and the text after
    * it is not all whitespace, so dropping the enumeration leaves a non-empty question.
    */
  lemma EnumerationBounds(t: string)
    requires t != [] && !IsSpace(t[0]) && !IsSpace(t[|t| - 1])
    requires |t| > MinQuestionLength && Enumerated(t)
    ensures 1 <= FirstIndexOf(t, '.') < EnumerationWindow
    ensures DropEnumeration(t) != []
  {
    DotInWindow(t);
    var rest := t[FirstIndexOf(t, '.') + 1..];
    assert rest[|rest| - 1] == t[|t| - 1];
    StripNonBlank(rest);
  }

  /** In an enumerated line the first `.` follows the leading digit within the window. */
  lemma DotInWindow(t: string)
    requires Enumerated(t) && |t| >= EnumerationWindow
    ensures 1 <= FirstIndexOf(t, '.') < EnumerationWindow
  {
    var k :| 0 <= k < EnumerationWindow && t[..EnumerationWindow][k] == '.';
    assert t[k] == '.';
  }

  /**
    * A kept line that starts with a digit and has a `.` among its first five characters
    * yields the trimmed text after that line's first `.`.
    */
  lemma EnumerationStripped(line: string, i: nat)
    requires Kept(line)
    requires var t := Strip(line);
             i < |t| && t[i] == '.' && (forall j :: 0 <= j < i ==> t[j] != '.')
             && IsAsciiDigit(t[0]) && i < EnumerationWindow
    ensures Question(line) == Strip(Strip(line)[i + 1..])
  {
    var t := Strip(line);
    assert t[..EnumerationWindow][i] == '.';
    FirstIndexOfAt(t, '.', i);
  }

  /** The questions the loop has collected after the given lines, in line order. */
  function Collect(lines: seq<string>): (qs: seq<string>)
    ensures |qs| <= |lines|
    ensures forall q :: q in qs ==> q != []
  {
    if lines == [] then []
    else
      var last := lines[|lines| - 1];
      Collect(lines[..|lines| - 1]) + (if Kept(last) then [Question(last)] else [])
  }

  /** The post-processor: the collected questions, or the fallback question when there are none. */
  function PostProcess(raw: string): (qs: seq<string>)
    ensures 1 <= |qs| <= |Split(raw, '\n')|
    ensures forall q :: q in qs ==> q != []
  {
    var found := Collect(Split(raw, '\n'));
    if found == [] then [FallbackQuestion] else found
  }

  /** Collecting one more line appends that line's question when it is kept. */
  lemma CollectStep(lines: seq<string>, n: nat)
    requires n < |lines|
    ensures Collect(lines[..n + 1])
         == Collect(lines[..n]) + (if Kept(lines[n]) then [Question(lines[n])] else [])
  {
    assert lines[..n + 1][..n] == lines[..n];
  }

  /** The loop in `generate_questions` that builds the question list. */
  method ParseQuestions(raw: string) returns (questions: seq<string>)
    ensures questions == PostProcess(raw)
  {
    var lines := Split(raw, '\n');
    questions := [];
    for n := 0 to |lines|
      invariant questions == Collect(lines[..n])
    {
      CollectStep(lines, n);
      var line := Strip(lines[n]);
      if line != [] && |line| > MinQuestionLength {
        if IsAsciiDigit(line[0]) && '.' in line[..EnumerationWindow] {
          line := Strip(AfterFirst(line, '.'));
        }
        assert line == Question(lines[n]);
        questions := questions + [line];
      }
    }
    assert lines[..|lines|] == lines;
    if questions == [] {
      questions := [FallbackQuestion];
    }
  }

  /** Positions of the kept lines, in increasing order. */
  function KeptPositions(lines: seq<string>): seq<nat> {
    if lines == [] then []
    else
      var n := |lines| - 1;
      KeptPositions(lines[..n]) + (if Kept(lines[n]) then [n] else [])
  }

  /** Every kept position names a line, and that line is kept. */
  lemma {:induction false} KeptPositionsKept(lines: seq<string>)
    ensures forall k :: 0 <= k < |KeptPositions(lines)| ==>
              KeptPositions(lines)[k] < |lines| && Kept(lines[KeptPositions(lines)[k]])
  {
    if lines != [] {
      var n := |lines| - 1;
      var front := lines[..n];
      KeptPositionsKept(front);
      var init := KeptPositions(front);
      forall k | 0 <= k < |init| ensures Kept(lines[init[k]]) {
        assert front[init[k]] == lines[init[k]];
      }
    }
  }

  /** The kept positions are strictly increasing, so questions come out in line order. */
  lemma {:induction false} KeptPositionsIncreasing(lines: seq<string>)
    ensures forall k1, k2 :: 0 <= k1 < k2 < |KeptPositions(lines)| ==>
              KeptPositions(lines)[k1] < KeptPositions(lines)[k2]
  {
    if lines != [] {
      var front := lines[..|lines| - 1];
      KeptPositionsKept(front);
      KeptPositionsIncreasing(front);
    }
  }

  /** Every kept line has its position listed: no kept line is skipped. */
  lemma {:induction false} KeptPositionsComplete(lines: seq<string>)
    ensures forall i :: 0 <= i < |lines| && Kept(lines[i]) ==> i in KeptPositions(lines)
  {
    if lines != [] {
      var n := |lines| - 1;
      var front := lines[..n];
      KeptPositionsComplete(front);
      var init := KeptPositions(front);
      forall i | 0 <= i < n && Kept(lines[i]) ensures i in init {
        assert front[i] == lines[i];
      }
    }
  }

  /**
    * The collected questions are, one for one and in order, the questions of the kept
    * lines: nothing comes from a line whose trimmed length is at most the threshold,
    * and no kept line is skipped.
    */
  lemma {:induction false} CollectIsKeptQuestions(lines: seq<string>)
    ensures |Collect(lines)| == |KeptPositions(lines)|
    ensures forall k :: 0 <= k < |Collect(lines)| ==>
              KeptPositions(lines)[k] < |lines| && Kept(lines[KeptPositions(lines)[k]])
              && Collect(lines)[k] == Question(lines[KeptPositions(lines)[k]])
  {
    KeptPositionsKept(lines);
    if lines != [] {
      var n := |lines| - 1;
      var front := lines[..n];
      CollectIsKeptQuestions(front);
      var init := KeptPositions(front);
      forall k | 0 <= k < |init| ensures front[init[k]] == lines[init[k]] {
      }
    }
  }

  /** Nothing is collected exactly when no line is kept. */
  lemma NothingCollectedIff(lines: seq<string>)
    ensures Collect(lines) == [] <==> forall i :: 0 <= i < |lines| ==> !Kept(lines[i])
  {
    CollectIsKeptQuestions(lines);
    KeptPositionsKept(lines);
    KeptPositionsComplete(lines);
  }

  /**
    * The reply's lines decide between the two outcomes: the fallback question alone when
    * no line is kept, otherwise exactly the collected questions.
    */
  lemma FallbackWhenNothingKept(raw: string)
    ensures (forall i :: 0 <= i < |Split(raw, '\n')| ==> !Kept(Split(raw, '\n')[i]))
              ==> PostProcess(raw) == [FallbackQuestion]
    ensures (exists i :: 0 <= i < |Split(raw, '\n')| && Kept(Split(raw, '\n')[i]))
              ==> PostProcess(raw) == Collect(Split(raw, '\n'))
  {
    NothingCollectedIff(Split(raw, '\n'));
  }

  /** A question text as the model might write it: not empty, no surrounding whitespace, one line. */
  predicate PlainText(q: string) {
    q != [] && !IsSpace(q[0]) && !IsSpace(q[|q| - 1]) && '\n' !in q
  }

  lemma NumberedLineKept(d: char, q: string, line: string)
    requires IsAsciiDigit(d) && PlainText(q) && |q| >= 8 && line == [d] + ". " + q
    ensures Strip(line) == line && Kept(line) && Enumerated(line)
  {
    assert line[|line| - 1] == q[|q| - 1];
    StripUnchanged(line);
    assert line[..EnumerationWindow][1] == '.';
  }

  lemma NumberedLineSuffix(d: char, q: string, line: string)
    requires IsAsciiDigit(d) && PlainText(q) && |q| >= 8 && line == [d] + ". " + q
    ensures Kept(line) && Question(line) == Strip(line[2..])
  {
    NumberedLineKept(d, q, line);
    assert line[1] == '.' && line[0] != '.';
    EnumerationStripped(line, 1);
  }

  /** A line "<digit>. <text>" contributes exactly `<text>`. */
  lemma NumberedLine(d: char, q: string, line: string)
    requires IsAsciiDigit(d) && PlainText(q) && |q| >= 8 && line == [d] + ". " + q
    ensures Kept(line) && Question(line) == q && '\n' !in line
  {
    NumberedLineSuffix(d, q, line);
    OneLine(d, q, line);
    assert line[2..] == [' '] + q;
    StripOneLeading(' ', q);
  }

  lemma OneLine(d: char, q: string, line: string)
    requires d != '\n' && '\n' !in q && line == [d] + ". " + q
    ensures '\n' !in line
  {
    assert line == [d, '.', ' '] + q;
  }

  /**
    * The length test runs before the enumeration is dropped: the reply "1. <text>" yields
    * `<text>` even when it has only 8, 9 or 10 characters.
    */
  lemma ShortQuestionSurvives(q: string, reply: string)
    requires PlainText(q) && |q| >= 8 && reply == "1. " + q
    ensures PostProcess(reply) == [q]
  {
    NumberedLine('1', q, reply);
    SplitNoSeparator(reply, '\n');
    assert [reply][..0] == [];
  }

  lemma FourLines(l1: string, l2: string, reply: string)
    requires '\n' !in l1 && '\n' !in l2
    requires reply == l1 + "\n" + l2 + "\nok\n"
    ensures Split(reply, '\n') == [l1, l2, "ok", ""]
  {
    var lines := [l1, l2, "ok", ""];
    assert Join(lines, '\n') == reply by {
      assert lines[1..] == [l2, "ok", ""];
      assert lines[1..][1..] == ["ok", ""];
      assert lines[1..][1..][1..] == [""];
      assert Join(["ok", ""], '\n') == "ok\n";
    }
    JoinSplit(lines, '\n');
  }

  lemma CollectTwoOfFour(lines: seq<string>, q1: string, q2: string)
    requires |lines| == 4
    requires Kept(lines[0]) && Question(lines[0]) == q1 && Kept(lines[1]) && Question(lines[1]) == q2
    requires !Kept(lines[2]) && !Kept(lines[3])
    ensures Collect(lines) == [q1, q2]
  {
    assert Collect(lines[..0]) == [] by { assert lines[..0] == []; }
    CollectKept(lines, 0, q1);
    assert Collect(lines[..1]) == [q1];
    CollectKept(lines, 1, q2);
    assert Collect(lines[..2]) == [q1, q2];
    CollectSkipped(lines, 2);
    CollectSkipped(lines, 3);
    assert lines[..4] == lines;
  }

  lemma CollectKept(lines: seq<string>, n: nat, q: string)
    requires n < |lines| && Kept(lines[n]) && Question(lines[n]) == q
    ensures Collect(lines[..n + 1]) == Collect(lines[..n]) + [q]
  {
    CollectStep(lines, n);
  }

  lemma CollectSkipped(lines: seq<string>, n: nat)
    requires n < |lines| && !Kept(lines[n])
    ensures Collect(lines[..n + 1]) == Collect(lines[..n])
  {
    CollectStep(lines, n);
  }

  /**
    * The reply "<d1>. <a>\n<d2>. <b>\nok\n" (say "1. What is X?\n2. Tell me about Y\nok\n")
    * yields [<a>, <b>]: the numbers are dropped, and so are the short line "ok" and the empty
    * last line.
    */
  lemma NumberedReply(d1: char, a: string, d2: char, b: string, reply: string)
    requires IsAsciiDigit(d1) && PlainText(a) && |a| >= 8
    requires IsAsciiDigit(d2) && PlainText(b) && |b| >= 8
    requires reply == [d1] + ". " + a + "\n" + [d2] + ". " + b + "\nok\n"
    ensures PostProcess(reply) == [a, b]
  {
    var l1, l2 := [d1] + ". " + a, [d2] + ". " + b;
    assert reply == l1 + "\n" + l2 + "\nok\n";
    NumberedLine(d1, a, l1);
    NumberedLine(d2, b, l2);
    NumberedLines(l1, l2, reply, a, b);
  }

  lemma NumberedLines(l1: string, l2: string, reply: string, a: string, b: string)
    requires '\n' !in l1 && '\n' !in l2
    requires reply == l1 + "\n" + l2 + "\nok\n"
    requires Kept(l1) && Question(l1) == a && Kept(l2) && Question(l2) == b
    ensures PostProcess(reply) == [a, b]
  {
    FourLines(l1, l2, reply);
    ShortLinesDropped();
    CollectTwoOfFour(Split(reply, '\n'), a, b);
  }

  /** The line "ok" and the empty line are too short to be kept. */
  lemma ShortLinesDropped()
    ensures !Kept("ok") && !Kept("")
  {
    assert |Strip("ok")| <= 2;
  }
}
