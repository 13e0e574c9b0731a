/** `deriveTitle` and `deriveExcerpt`: the title and the short excerpt a note
    shows, both computed from its content. */
module Derive {
  import opened Wrappers
  import opened Text

  /** The title given to a note whose content has no usable first line. */
  const Untitled: string := "Sin título"
  /** A first line longer than this is cut to this many characters. */
  const TitleLimit: nat := 50
  /** The marker appended to a cut title or excerpt. */
  const Ellipsis: string := "..."
  /** The excerpt length used when no maximum is given, and by the store. */
  const DefaultExcerptLength: nat := 100

  /** `deriveTitle(content)` as a value: the first line of the trimmed content,
      cut to `TitleLimit` characters plus `Ellipsis` when longer, then
      trimmed; `Untitled` when there is nothing to take it from. Every title
      is non-empty and at most `TitleLimit + |Ellipsis|` (53) characters. */
  function Title(content: string): (r: string)
    ensures 0 < |r| <= TitleLimit + |Ellipsis|
  {
    if content == "" then Untitled
    else
      var clean := Trim(content);
      if clean == "" then Untitled else LineTitle(FirstLine(clean))
  }

  /** The title made from a first line: `Untitled` when the line is blank,
      otherwise the line, cut to `TitleLimit` characters plus `Ellipsis` when
      longer, and trimmed. */
  function LineTitle(line: string): string {
    if Trim(line) == "" then Untitled
    else Trim(if |line| > TitleLimit then line[..TitleLimit] + Ellipsis else line)
  }

  /** `deriveTitle`, collecting the first line of the trimmed content with
      `ScanFirstLine` as the source's loop does. */
  method DeriveTitle(content: string) returns (title: string)
    ensures title == Title(content)
  {
    if content == "" {
      return Untitled;
    }
    var clean := Trim(content);
    if clean == "" {
      return Untitled;
    }
    var firstLine := ScanFirstLine(clean);
    if Trim(firstLine) == "" {
      title := Untitled;
    } else {
      if |firstLine| > TitleLimit {
        firstLine := firstLine[..TitleLimit] + Ellipsis;
      }
      title := Trim(firstLine);
    }
  }

  /** The loop of `deriveTitle`: appends the characters of `text` one by one
      to an accumulator and stops at the first newline. */
  method ScanFirstLine(text: string) returns (firstLine: string)
    ensures firstLine == FirstLine(text)
  {
    firstLine := "";
    var i := 0;
    while i < |text|
      invariant 0 <= i <= |text|
      invariant firstLine == text[..i]
      invariant '\n' !in firstLine
    {
      var ch := text[i];
      if ch == '\n' {
        break;
      }
      firstLine := firstLine + [ch];
      i := i + 1;
    }
    FirstLineUnique(text, firstLine);
  }

  /** Empty or whitespace-only content has the title `Untitled`. */
  lemma TitleOfBlank(content: string)
    requires Blank(content)
    ensures Title(content) == Untitled
  {
  }

  /** The source's "first line is blank" test can never succeed: the content
      was trimmed first, so its first character is neither whitespace nor a
      newline and starts the first line. */
  lemma FirstLineNotBlank(content: string)
    requires !Blank(content)
    ensures !Blank(FirstLine(Trim(content)))
  {
    var clean := Trim(content);
    assert clean != [] && !IsSpace(clean[0]);
    assert clean[0] != '\n';
    var line := FirstLine(clean);
    assert line != [] && line[0] == clean[0];
  }

  /** A first line that starts with a non-whitespace character gives its own
      text as the title: cut to `TitleLimit` characters followed by `Ellipsis`
      when longer, otherwise without its trailing whitespace. */
  lemma LineTitleOfText(line: string)
    requires line != [] && !IsSpace(line[0])
    ensures LineTitle(line) == if |line| > TitleLimit then line[..TitleLimit] + Ellipsis
                               else Trim(line)
    ensures 0 < |LineTitle(line)| <= TitleLimit + |Ellipsis|
  {
    assert !Blank(line);
    assert Trim(line) != "";
    if |line| > TitleLimit {
      var cut := line[..TitleLimit] + Ellipsis;
      assert cut[0] == line[0];
      assert cut[|cut| - 1] == '.';
      TrimUnchanged(cut);
    }
  }

  /** For content that is not blank the title is the first line of the
      trimmed content: cut to `TitleLimit` characters followed by `Ellipsis`
      when longer, otherwise that line without its trailing whitespace. */
  lemma TitleOfText(content: string)
    requires !Blank(content)
    ensures var line := FirstLine(Trim(content));
            Title(content) == if |line| > TitleLimit then line[..TitleLimit] + Ellipsis
                              else Trim(line)
    ensures 0 < |Title(content)| <= TitleLimit + |Ellipsis|
  {
    var clean := Trim(content);
    assert content != "" && clean != "";
    var line := FirstLine(clean);
    assert Title(content) == LineTitle(line);
    assert !IsSpace(clean[0]);
    assert line != [] && line[0] == clean[0];
    LineTitleOfText(line);
  }

  /** A content whose first line `line` starts and ends with non-whitespace
      has that line as its title, cut to `TitleLimit` characters plus
      `Ellipsis` when longer; whatever follows the newline is ignored. */
  lemma TitleOfFirstLine(line: string, rest: string)
    requires line != [] && !IsSpace(line[0]) && !IsSpace(line[|line| - 1])
    requires '\n' !in line
    requires rest == [] || rest[0] == '\n'
    ensures Title(line + rest) == if |line| > TitleLimit then line[..TitleLimit] + Ellipsis else line
  {
    var s := line + rest;
    assert s[0] == line[0] && s[|line| - 1] == line[|line| - 1];
    var r := Trim(s);
    TrimInfix(s);
    assert LeadingSpaces(s) == 0;
    assert |r| >= |line|;
    assert line == r[..|line|];
    assert |line| == |r| || r[|line|] == '\n' by {
      if |line| < |r| { assert r[|line|] == s[|line|] == rest[0]; }
    }
    FirstLineUnique(r, line);
    TitleOfText(s);
    TrimUnchanged(line);
  }

  /** `deriveExcerpt(content, maxLen)`: the trimmed content when it fits in
      `maxLen` characters (100 when no maximum is given), otherwise its first
      `maxLen` characters followed by `Ellipsis`. The excerpt is empty exactly
      when the content is blank. */
  function DeriveExcerpt(content: string, maxLen: Option<nat>): (r: string)
    ensures var m := if maxLen.Some? then maxLen.value else DefaultExcerptLength;
            && (|Trim(content)| <= m ==> r == Trim(content))
            && (|Trim(content)| > m ==> r == Trim(content)[..m] + Ellipsis)
            && |r| <= m + |Ellipsis|
    ensures r == "" <==> Blank(content)
  {
    if content == "" then
      assert Trim(content) == "";
      ""
    else
      var maxLength := if maxLen.None? then DefaultExcerptLength else maxLen.value;
      var clean := Trim(content);
      if |clean| <= maxLength then clean
      else
        var cut := clean[..maxLength] + Ellipsis;
        assert |cut| == maxLength + |Ellipsis| && cut != "" && clean != "";
        cut
  }
}
