/** Turning the pages of one uploaded CV into the text sent to the model:
    each page's text line followed by one line per embedded link, joined
    with newlines and placed after the fixed instructions. */
module CvText {
  import opened Options
  import opened Seqs

  /** A hyperlink annotation. `uri` is None when the annotation has no "uri"
      entry or its value is None. */
  datatype Link = Link(uri: Option<string>)

  /** What the PDF reader gives for one page: the extracted text (None when
      there is none) and the page's hyperlinks in reading order. */
  datatype Page = Page(text: Option<string>, hyperlinks: seq<Link>)

  const LinkLabel: string := "Embedded Link: "
  const ContentHeader: string := "\n\nCV Content:\n"

  /** The fixed instructions given to the model before every CV, line by
      line: the text opens with a newline and ends with one. */
  const SystemPromptLines: seq<string> := [
    "",
    "You are a resume parser. Extract structured data from any CV text and return valid JSON that maps to the following schema.",
    "",
    "Include only fields that can be extracted directly from the CV. Omit any system-generated fields like IDs.",
    "",
    "Map links like LinkedIn, GitHub, and Portfolio to their correct fields. If the text includes a label (e.g., \U{201C}LinkedIn:\U{201D}) followed by a non-clickable name, but embedded links are listed below under [Resolved Links], use the actual URLs.",
    "",
    "Return all dates in YYYY-MM-DD format, and normalize phone numbers to international format (e.g., +[CountryCode]-[Number]).",
    "",
    "Expected JSON structure:",
    "{",
    "  \"Candidate\": {",
    "    \"FullName\",",
    "    \"Nationality\",",
    "    \"CurrentLocation\",",
    "    \"Phone\",",
    "    \"Email\",",
    "    \"LinkedInURL\",",
    "    \"CareerSummary\",",
    "    \"ProfilePhoto\",",
    "    \"PortfolioLink\"",
    "  },",
    "  \"EmploymentHistory\": [ ... ],",
    "  \"Education\": [ ... ],",
    "  \"Certifications\": [ ... ],",
    "  \"Skills\": [ ... ],",
    "  \"Projects\": [ ... ],",
    "  \"Publications\": [ ... ],",
    "  \"VolunteerExperience\": [ ... ],",
    "  \"References\": [ ... ],",
    "  \"OtherInformation\": [ ... ],",
    "  \"Languages\": [ ... ],",
    "  \"Awards\": [ ... ],",
    "  \"Interests\": [ ... ]",
    "}",
    ""
  ]

  const SystemPrompt: string := Join(SystemPromptLines, "\n")

  /** A link is written out when its uri is present and non-empty
      (Python's truthiness test on the string). */
  predicate Contributes(l: Link)
  {
    l.uri.Some? && l.uri.value != ""
  }

  /** The page's text line: its text, or "" when nothing was extracted. */
  function TextLine(p: Page): string
  {
    p.text.GetOr("")
  }

  /** The line one link adds, if any. */
  function LinkLine(l: Link): seq<string>
  {
    if Contributes(l) then [LinkLabel + l.uri.value] else []
  }

  /** The lines the links of one page add, in link order. */
  function LinkLines(links: seq<Link>): (r: seq<string>)
    ensures |r| <= |links|
  {
    if |links| == 0 then []
    else LinkLines(links[..|links| - 1]) + LinkLine(links[|links| - 1])
  }

  /** One page's lines: its text line, then its link lines. */
  function PageLines(p: Page): seq<string>
  {
    [TextLine(p)] + LinkLines(p.hyperlinks)
  }

  /** `text_lines` after the page loop: every page's lines, pages in order. */
  function TextLines(pages: seq<Page>): (r: seq<string>)
    ensures |r| >= |pages|
  {
    if |pages| == 0 then []
    else TextLines(pages[..|pages| - 1]) + PageLines(pages[|pages| - 1])
  }

  /** `text`: the lines joined with newlines. */
  function CvTextOf(pages: seq<Page>): string
  {
    Join(TextLines(pages), "\n")
  }

  /** A prompt: the instructions, the content header, then the CV text. */
  function Prompt(instructions: string, pages: seq<Page>): string
  {
    instructions + ContentHeader + CvTextOf(pages)
  }

  /** `full_prompt`: the prompt with the fixed instructions. */
  function FullPrompt(pages: seq<Page>): string
  {
    Prompt(SystemPrompt, pages)
  }

  /** The number of links that are written out. */
  function CountContributing(links: seq<Link>): nat
  {
    if |links| == 0 then 0
    else CountContributing(links[..|links| - 1]) + (if Contributes(links[|links| - 1]) then 1 else 0)
  }

  /** The number of links written out across all pages. */
  function CountAllContributing(pages: seq<Page>): nat
  {
    if |pages| == 0 then 0
    else CountAllContributing(pages[..|pages| - 1]) + CountContributing(pages[|pages| - 1].hyperlinks)
  }

  /** The links of a concatenation add the lines of each part, in order. */
  lemma {:induction false} LinkLinesAppend(a: seq<Link>, b: seq<Link>)
    ensures LinkLines(a + b) == LinkLines(a) + LinkLines(b)
    decreases |b|
  {
    if |b| == 0 {
      assert a + b == a;
    } else {
      var binit := b[..|b| - 1];
      assert (a + b)[..|a + b| - 1] == a + binit;
      LinkLinesAppend(a, binit);
    }
  }

  /** A single link adds one line `Embedded Link: <uri>` when its uri is
      present and non-empty, and nothing otherwise. */
  lemma LinkLinesSingle(l: Link)
    ensures Contributes(l) ==> LinkLines([l]) == [LinkLabel + l.uri.value]
    ensures !Contributes(l) ==> LinkLines([l]) == []
  {
    assert [l][..0] == [];
  }

  /** A line is a link line exactly when some link with a non-empty uri
      produces it. */
  lemma {:induction false} LinkLinesMembers(links: seq<Link>, line: string)
    ensures line in LinkLines(links) <==>
            exists i :: 0 <= i < |links| && Contributes(links[i]) && line == LinkLabel + links[i].uri.value
  {
    if |links| > 0 {
      var init := links[..|links| - 1];
      LinkLinesMembers(init, line);
      if line in LinkLines(links) && line !in LinkLines(init) {
        var n := |links| - 1;
        assert Contributes(links[n]) && line == LinkLabel + links[n].uri.value;
      }
      if exists i :: 0 <= i < |links| && Contributes(links[i]) && line == LinkLabel + links[i].uri.value {
        var i :| 0 <= i < |links| && Contributes(links[i]) && line == LinkLabel + links[i].uri.value;
        if i < |links| - 1 {
          assert init[i] == links[i];
        }
      }
    }
  }

  /** The number of link lines is the number of links with a non-empty uri. */
  lemma {:induction false} LinkLinesCount(links: seq<Link>)
    ensures |LinkLines(links)| == CountContributing(links)
  {
    if |links| > 0 {
      LinkLinesCount(links[..|links| - 1]);
    }
  }

  /** The last page's lines come after those of the pages before it. */
  lemma TextLinesLast(pages: seq<Page>)
    requires |pages| > 0
    ensures TextLines(pages) == TextLines(pages[..|pages| - 1]) + PageLines(pages[|pages| - 1])
  {
  }

  /** The lines of a concatenation of page lists are the lines of each. */
  lemma {:induction false} TextLinesAppend(a: seq<Page>, b: seq<Page>)
    ensures TextLines(a + b) == TextLines(a) + TextLines(b)
    decreases |b|
  {
    if |b| == 0 {
      assert a + b == a;
    } else {
      var ab := a + b;
      var binit := b[..|b| - 1];
      var last := b[|b| - 1];
      Seqs.ConcatInit(a, b);
      TextLinesLast(ab);
      TextLinesLast(b);
      TextLinesAppend(a, binit);
      Seqs.ConcatAssoc(TextLines(a), TextLines(binit), PageLines(last));
    }
  }

  /** There is one line per page plus one per link with a non-empty uri. */
  lemma {:induction false} TextLinesCount(pages: seq<Page>)
    ensures |TextLines(pages)| == |pages| + CountAllContributing(pages)
  {
    if |pages| > 0 {
      TextLinesCount(pages[..|pages| - 1]);
      LinkLinesCount(pages[|pages| - 1].hyperlinks);
    }
  }

  /** The lines split around page `i`: those of the pages before it, its
      own, and those of the pages after it. */
  lemma {:induction false} TextLinesAround(pages: seq<Page>, i: nat)
    requires i < |pages|
    ensures TextLines(pages) == TextLines(pages[..i]) + PageLines(pages[i]) + TextLines(pages[i + 1..])
  {
    var before := pages[..i];
    var single := [pages[i]];
    var after := pages[i + 1..];
    var bs := before + single;
    assert pages == bs + after;
    TextLinesAppend(before, single);
    TextLinesAppend(bs, after);
    assert TextLines(pages) == (TextLines(before) + TextLines(single)) + TextLines(after);
    assert TextLines(single) == PageLines(pages[i]) by {
      assert single[..0] == [];
    }
    assert TextLines(pages) == (TextLines(before) + PageLines(pages[i])) + TextLines(after);
  }

  /** The links written out up to and including page `i`. */
  lemma {:induction false} CountThrough(pages: seq<Page>, i: nat)
    requires i < |pages|
    ensures CountAllContributing(pages[..i + 1])
            == CountAllContributing(pages[..i]) + CountContributing(pages[i].hyperlinks)
  {
    assert pages[..i + 1][..i] == pages[..i];
  }

  /** Page `p`'s block sits at position `start` of `lines`: its text line
      there, then exactly its link lines. */
  predicate PageAt(lines: seq<string>, start: nat, p: Page)
  {
    var links := LinkLines(p.hyperlinks);
    && start + 1 + |links| <= |lines|
    && lines[start] == TextLine(p)
    && lines[start + 1 .. start + 1 + |links|] == links
  }

  /** Page `i`'s block starts at `start`, the number of lines of the pages
      before it. */
  lemma {:induction false} PageBlockAt(pages: seq<Page>, i: nat, start: nat)
    requires i < |pages|
    requires start == |TextLines(pages[..i])|
    ensures PageAt(TextLines(pages), start, pages[i])
  {
    TextLinesAround(pages, i);
    BlockAt(TextLines(pages[..i]), TextLine(pages[i]), LinkLines(pages[i].hyperlinks), TextLines(pages[i + 1..]), start);
  }

  /** Page `i`'s block starts after the earlier pages' text lines and written
      links: its text line first, then exactly its link lines, and the next
      page's block starts right after. */
  lemma {:induction false} PageBlock(pages: seq<Page>, i: nat)
    requires i < |pages|
    ensures PageAt(TextLines(pages), i + CountAllContributing(pages[..i]), pages[i])
    ensures i + CountAllContributing(pages[..i]) + 1 + |LinkLines(pages[i].hyperlinks)|
            == i + 1 + CountAllContributing(pages[..i + 1])
  {
    TextLinesCount(pages[..i]);
    LinkLinesCount(pages[i].hyperlinks);
    CountThrough(pages, i);
    PageBlockAt(pages, i, i + CountAllContributing(pages[..i]));
  }

  /** The CV text followed by one newline is every line followed by a
      newline: lines are separated, and nothing trails the last. */
  lemma {:induction false} CvTextLines(pages: seq<Page>)
    requires |pages| > 0
    ensures CvTextOf(pages) + "\n" == Terminated(TextLines(pages), "\n")
  {
    JoinThenSeparator(TextLines(pages), "\n");
  }

  /** The CV text is empty exactly when there are no pages, or one page with
      no text and no written links. */
  lemma {:induction false} CvTextEmpty(pages: seq<Page>)
    ensures CvTextOf(pages) == "" <==>
            |pages| == 0 || (|pages| == 1 && TextLine(pages[0]) == "" && CountContributing(pages[0].hyperlinks) == 0)
  {
    JoinEmpty(TextLines(pages), "\n");
    TextLinesCount(pages);
    if |pages| == 1 {
      assert pages[..0] == [];
      LinkLinesCount(pages[0].hyperlinks);
    }
  }

  /** The prompt always starts with the instructions, followed by the content
      header, and ends with the CV text. */
  lemma {:induction false} PromptShape(instructions: string, pages: seq<Page>)
    ensures var p := Prompt(instructions, pages);
            var n := |instructions| + |ContentHeader|;
            && n <= |p|
            && p[..|instructions|] == instructions
            && p[|instructions|..n] == ContentHeader
            && p[n..] == CvTextOf(pages)
  {
  }

  /** The prompt sent for a CV always begins with the fixed instructions. */
  lemma {:induction false} FullPromptStartsWithInstructions(pages: seq<Page>)
    ensures SystemPrompt <= FullPrompt(pages)
  {
    PromptShape(SystemPrompt, pages);
  }

  /** Taking one more link adds that link's line. */
  lemma {:induction false} LinkLinesStep(links: seq<Link>, j: nat)
    requires j < |links|
    ensures LinkLines(links[..j + 1]) == LinkLines(links[..j]) + LinkLine(links[j])
  {
    assert links[..j + 1][..j] == links[..j];
  }

  /** The inner loop of one page: its text line, then a line per written link. */
  method AppendPage(lines: seq<string>, page: Page) returns (out: seq<string>)
    ensures out == lines + PageLines(page)
  {
    var links := page.hyperlinks;
    var head := lines + [TextLine(page)];
    out := head;
    var j := 0;
    while j < |links|
      invariant j <= |links|
      invariant out == head + LinkLines(links[..j])
    {
      var link := links[j];
      LinkLinesStep(links, j);
      if Contributes(link) {
        out := out + [LinkLabel + link.uri.value];
      }
      assert out == head + (LinkLines(links[..j]) + LinkLine(link));
      j := j + 1;
    }
    assert links[..j] == links;
  }

  /** The page loop as written: pages in order, each adding its block. */
  method AssembleTextLines(pages: seq<Page>) returns (lines: seq<string>)
    ensures lines == TextLines(pages)
    ensures |lines| == |pages| + CountAllContributing(pages)
  {
    lines := [];
    var i := 0;
    while i < |pages|
      invariant i <= |pages|
      invariant lines == TextLines(pages[..i])
    {
      lines := AppendPage(lines, pages[i]);
      assert pages[..i + 1][..i] == pages[..i];
      i := i + 1;
    }
    assert pages[..i] == pages;
    TextLinesCount(pages);
  }
}
