/**
 * The Markdown line parser of `create_pdf_simple.py`: the content is split into
 * lines, each stripped line is classified (blank, title, heading, code fence,
 * bullet, numbered item, paragraph) and turned into blocks of the PDF story. A
 * fence gathers the raw lines up to the next fence. The reportlab flowables are
 * abstract blocks here; spacer heights are counted in tenths of an inch.
 */
module Markdown {
  import opened Text
  import Markup

  datatype Block =
    | Spacer(tenths: nat)
    | Title(text: string)
    | Heading(level: nat, text: string)
    | Preformatted(text: string)
    | Paragraph(text: string)

  /** The blocks one step of the loop appends, and the index it moves on to. */
  datatype Advance = Advance(blocks: seq<Block>, next: nat)

  /** A line opening or closing a code block: stripped, it starts with three backticks. */
  predicate IsFence(raw: string) {
    "```" <= Strip(raw)
  }

  /** The inner loop of a code block: the index of the first fence line at or after
      `j`, or the end of the input when there is none. */
  function FenceEnd(lines: seq<string>, j: nat): (e: nat)
    requires j <= |lines|
    decreases |lines| - j
    ensures j <= e <= |lines|
    ensures forall k :: j <= k < e ==> !IsFence(lines[k])
    ensures e < |lines| ==> IsFence(lines[e])
  {
    if j == |lines| || IsFence(lines[j]) then j else FenceEnd(lines, j + 1)
  }

  /** What a stripped line is, by the first test of the `if`/`elif` chain it passes. */
  datatype Kind = Blank | TitleLine | Heading1 | Heading2 | Heading3 | Fence | Bullet | Numbered | Regular

  /** The `if`/`elif` chain of the loop; `first` says whether the line is line 0. */
  function Classify(line: string, first: bool): Kind
  {
    if line == [] then Blank
    else if "# " <= line && first then TitleLine
    else if "## " <= line then Heading1
    else if "### " <= line then Heading2
    else if "#### " <= line then Heading3
    else if "```" <= line then Fence
    else if "- " <= line || "* " <= line then Bullet
    else if Markup.IsNumbered(line) then Numbered
    else Regular
  }

  /** The blocks a line adds when it does not open a code block. */
  function LineBlocks(line: string, first: bool): seq<Block>
    requires Classify(line, first) != Fence
  {
    match Classify(line, first)
    case Blank => [Spacer(1)]
    case TitleLine => [Title(line[2..]), Spacer(3)]
    case Heading1 => [Spacer(2), Heading(1, line[3..])]
    case Heading2 => [Heading(2, line[4..])]
    case Heading3 => [Heading(3, line[5..])]
    case Bullet => [Paragraph(Markup.BulletText(line))]
    case Numbered => [Paragraph(Markup.NumberedText(line))]
    case Regular => [Paragraph(Markup.ParagraphText(line))]
  }

  /** One pass of the outer loop at index `i`. The index always moves forward: by one
      line, or past the whole code block when the line opens a fence. */
  function Step(lines: seq<string>, i: nat): (r: Advance)
    requires i < |lines|
    ensures i < r.next <= |lines| + 1
    ensures r.next != i + 1 ==> IsFence(lines[i])
  {
    var line := Strip(lines[i]);
    if Classify(line, i == 0) == Fence then
      var e := FenceEnd(lines, i + 1);
      Advance(if e == i + 1 then [] else [Preformatted(Join(lines[i + 1..e], '\n'))], e + 1)
    else Advance(LineBlocks(line, i == 0), i + 1)
  }

  /** The story built from line `i` on. */
  function RenderFrom(lines: seq<string>, i: nat): seq<Block>
    decreases |lines| - i
  {
    if i >= |lines| then []
    else
      var r := Step(lines, i);
      r.blocks + RenderFrom(lines, r.next)
  }

  /** The whole story of a Markdown text. */
  function Render(content: string): seq<Block>
  {
    RenderFrom(Split(content, '\n'), 0)
  }

  /** The parsing loop: a manually advanced index, and blocks appended to the story. */
  method Parse(content: string) returns (story: seq<Block>)
    ensures story == Render(content)
  {
    var lines := Split(content, '\n');
    var i := 0;
    story := [];
    while i < |lines|
      invariant i <= |lines| + 1
      invariant story + RenderFrom(lines, i) == Render(content)
      decreases |lines| + 1 - i
    {
      RenderStep(story, lines, i);
      var blocks;
      blocks, i := ParseLine(lines, i);
      story := story + blocks;
    }
  }

  /** One pass of the loop body: the blocks line `i` adds and where the loop goes next. */
  method ParseLine(lines: seq<string>, i: nat) returns (blocks: seq<Block>, next: nat)
    requires i < |lines|
    ensures Advance(blocks, next) == Step(lines, i)
  {
    var line := Strip(lines[i]);
    if Classify(line, i == 0) == Fence {
      var code, e := GatherCode(lines, i + 1);
      FenceStep(lines, i, code, e);
      blocks := [];
      if code != [] {
        blocks := [Preformatted(Join(code, '\n'))];
      }
      next := e + 1;
    } else {
      LineStep(lines, i);
      blocks := LineBlocks(line, i == 0);
      next := i + 1;
    }
  }

  /** The inner loop of a code block: the raw lines from `start` up to the next fence
      line, and the index of that fence (or the end of the input). */
  method GatherCode(lines: seq<string>, start: nat) returns (code: seq<string>, e: nat)
    requires start <= |lines|
    ensures e == FenceEnd(lines, start) && code == lines[start..e]
  {
    e := start;
    code := [];
    while e < |lines| && !IsFence(lines[e])
      invariant start <= e <= |lines|
      invariant code == lines[start..e]
      invariant FenceEnd(lines, e) == FenceEnd(lines, start)
      decreases |lines| - e
    {
      code := code + [lines[e]];
      e := e + 1;
    }
  }

  /** One step of the loop takes its blocks off the front of the rest of the story. */
  lemma RenderStep(before: seq<Block>, lines: seq<string>, i: nat)
    requires i < |lines|
    ensures var r := Step(lines, i);
      before + RenderFrom(lines, i) == (before + r.blocks) + RenderFrom(lines, r.next)
  {
  }

  /** The step at a fence line adds the gathered lines as one code block, if any. */
  lemma FenceStep(lines: seq<string>, i: nat, code: seq<string>, e: nat)
    requires i < |lines| && Classify(Strip(lines[i]), i == 0) == Fence
    requires e == FenceEnd(lines, i + 1) && code == lines[i + 1..e]
    ensures Step(lines, i) == Advance(if code == [] then [] else [Preformatted(Join(code, '\n'))], e + 1)
  {
  }

  /** The step at any other line adds that line's blocks and moves on by one. */
  lemma LineStep(lines: seq<string>, i: nat)
    requires i < |lines| && Classify(Strip(lines[i]), i == 0) != Fence
    ensures Step(lines, i) == Advance(LineBlocks(Strip(lines[i]), i == 0), i + 1)
  {
  }

  /** A line of nothing but whitespace adds one small spacer and moves on one line. */
  lemma StepBlank(lines: seq<string>, i: nat)
    requires i < |lines| && forall k :: 0 <= k < |lines[i]| ==> IsSpace(lines[i][k])
    ensures Step(lines, i) == Advance([Spacer(1)], i + 1)
  {
    StripSpec(lines[i]);
  }

  /** `# ` makes a title, followed by a spacer, only on the first line; on any other
      line it is read as an ordinary paragraph. */
  lemma TitleBlocks(line: string, first: bool)
    requires "# " <= line
    ensures Classify(line, first) != Fence
    ensures LineBlocks(line, first) ==
      if first then [Title(line[2..]), Spacer(3)] else [Paragraph(Markup.ParagraphText(line))]
  {
    assert line[1] == ' ';
    if !first {
      assert !Markup.IsNumbered(line) by { assert Markup.DigitRun(line) == 0; }
    }
  }

  /** `## `, `### ` and `#### ` make headings of levels 1, 2 and 3 holding the text
      after the marker; a level-1 heading comes after a spacer. */
  lemma HeadingBlocks(line: string, first: bool, level: nat)
    requires 1 <= level <= 3 && seq(level + 1, _ => '#') + " " <= line
    ensures Classify(line, first) != Fence
    ensures var heading := Heading(level, line[level + 2..]);
      LineBlocks(line, first) == if level == 1 then [Spacer(2), heading] else [heading]
  {
    var marker := seq(level + 1, _ => '#') + " ";
    assert line[..level + 2] == marker;
    assert line[0] == '#' && line[1] == '#' && line[level + 1] == ' ';
    if level == 1 {
      assert "## " == line[..3];
    } else if level == 2 {
      assert line[2] == '#' && "### " == line[..4];
    } else {
      assert line[2] == '#' && line[3] == '#' && "#### " == line[..5];
    }
  }

  /** A bullet line keeps its text after the two-character marker, rewritten. */
  lemma BulletBlocks(line: string, first: bool)
    requires "- " <= line || "* " <= line
    ensures Classify(line, first) != Fence
    ensures LineBlocks(line, first) == [Paragraph(Markup.BulletText(line))]
  {
    assert line[0] == '-' || line[0] == '*';
  }

  /** A numbered line loses its number, dot and the whitespace after them. */
  lemma NumberedBlocks(line: string, first: bool)
    requires Markup.IsNumbered(line)
    ensures Classify(line, first) != Fence
    ensures LineBlocks(line, first) == [Paragraph(Markup.NumberedText(line))]
  {
    assert Markup.IsDigit(line[0]);
  }

  /** A fence gathers the raw lines after it up to the next fence line (or the end of
      the input), consumes the closing fence, and adds a code block only when it
      gathered something. The code block holds exactly the gathered lines, unstripped. */
  lemma StepFence(lines: seq<string>, i: nat)
    requires i < |lines| && IsFence(lines[i])
    requires forall k :: 0 <= k < |lines| ==> '\n' !in lines[k]
    ensures var e := FenceEnd(lines, i + 1); var r := Step(lines, i);
      && r.next == e + 1
      && (e == i + 1 ==> r.blocks == [])
      && (e > i + 1 ==> |r.blocks| == 1 && r.blocks[0].Preformatted?
                        && Split(r.blocks[0].text, '\n') == lines[i + 1..e])
  {
    FenceKind(Strip(lines[i]), i == 0);
    var e := FenceEnd(lines, i + 1);
    if e > i + 1 {
      SplitJoin(lines[i + 1..e], '\n');
    }
  }

  lemma FenceKind(line: string, first: bool)
    requires "```" <= line
    ensures Classify(line, first) == Fence
  {
    assert line[0] == '`';
  }

  /** A run of blocks holding no title. */
  predicate Untitled(bs: seq<Block>) {
    forall k :: 0 <= k < |bs| ==> !bs[k].Title?
  }

  lemma UntitledConcat(a: seq<Block>, b: seq<Block>)
    requires Untitled(a) && Untitled(b)
    ensures Untitled(a + b)
  {
    forall k | 0 <= k < |a + b|
      ensures !(a + b)[k].Title?
    {
      if k >= |a| {
        assert (a + b)[k] == b[k - |a|];
      }
    }
  }

  /** Past the first line, no step makes a title. */
  lemma NoTitleAfterFirst(lines: seq<string>, i: nat)
    requires 0 < i < |lines|
    ensures Untitled(Step(lines, i).blocks)
  {
    var line := Strip(lines[i]);
    if Classify(line, false) != Fence {
      assert Classify(line, false) != TitleLine;
    }
  }

  /** No block after the first step is a title. */
  lemma {:induction false} NoLaterTitle(lines: seq<string>, i: nat)
    requires i > 0
    decreases |lines| - i
    ensures Untitled(RenderFrom(lines, i))
  {
    if i < |lines| {
      NoTitleAfterFirst(lines, i);
      NoLaterTitle(lines, Step(lines, i).next);
      UntitledConcat(Step(lines, i).blocks, RenderFrom(lines, Step(lines, i).next));
    }
  }

  /** The first step makes a title, followed by a spacer, exactly when the first line
      starts with `# `; otherwise it makes none. */
  lemma FirstStep(lines: seq<string>)
    requires lines != []
    ensures var r := Step(lines, 0);
      if "# " <= Strip(lines[0]) then r.blocks == [Title(Strip(lines[0])[2..]), Spacer(3)]
      else Untitled(r.blocks)
  {
    var line := Strip(lines[0]);
    if "# " <= line {
      TitleBlocks(line, true);
    } else {
      assert Classify(line, true) != TitleLine;
    }
  }

  /** A story has at most one title, and only as its first block, made from a first
      line that starts with `# `. */
  lemma TitleOnlyFirst(content: string)
    ensures var story := Render(content);
      forall k :: 0 < k < |story| ==> !story[k].Title?
    ensures var story := Render(content);
      |story| > 0 && story[0].Title? <==> "# " <= Strip(Split(content, '\n')[0])
  {
    StoryTitles(Split(content, '\n'));
  }

  lemma StoryTitles(lines: seq<string>)
    requires lines != []
    ensures var story := RenderFrom(lines, 0);
      && (forall k :: 0 < k < |story| ==> !story[k].Title?)
      && (|story| > 0 && story[0].Title? <==> "# " <= Strip(lines[0]))
  {
    var r := Step(lines, 0);
    var rest := RenderFrom(lines, r.next);
    assert RenderFrom(lines, 0) == r.blocks + rest;
    FirstStep(lines);
    NoLaterTitle(lines, r.next);
    if "# " <= Strip(lines[0]) {
      TitledStory(r.blocks, rest, Strip(lines[0])[2..]);
    } else {
      UntitledConcat(r.blocks, rest);
    }
  }

  lemma TitledStory(blocks: seq<Block>, rest: seq<Block>, title: string)
    requires blocks == [Title(title), Spacer(3)] && Untitled(rest)
    ensures var story := blocks + rest;
      && (forall k :: 0 < k < |story| ==> !story[k].Title?)
      && story[0].Title?
  {
    UntitledConcat([Spacer(3)], rest);
    AfterHead(blocks + rest, Title(title), [Spacer(3)] + rest);
  }

  /** A story made of a head block and an untitled tail has no title past index 0. */
  lemma AfterHead(story: seq<Block>, head: Block, tail: seq<Block>)
    requires story == [head] + tail && Untitled(tail)
    ensures forall k :: 0 < k < |story| ==> !story[k].Title?
  {
    forall k | 0 < k < |story|
      ensures !story[k].Title?
    {
      assert story[k] == tail[k - 1];
    }
  }
}
