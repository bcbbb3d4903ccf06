/** Line cleanup for PDF text: `process_file` (which breaks lines after
    every `。`, rejoins quotations broken across lines, deletes the letter `s`,
    strips the lines and drops the empty ones) and `group_lines` (which joins
    consecutive lines into fixed-size groups). */
module LineCleanup {
  import opened Wrappers
  import opened Text

  /** The lines after `line.replace('。', '。\n').split('\n')`, flattened. */
  function Pieces(lines: seq<string>): seq<string> {
    if lines == [] then []
    else Pieces(lines[..|lines| - 1]) + Split(ReplaceChar(lines[|lines| - 1], '。', "。\n"), '\n')
  }

  /** No piece contains a line break. */
  lemma {:induction false} PiecesHaveNoBreak(lines: seq<string>)
    ensures forall i :: 0 <= i < |Pieces(lines)| ==> '\n' !in Pieces(lines)[i]
  {
    if lines != [] {
      PiecesHaveNoBreak(lines[..|lines| - 1]);
    }
  }

  /** A character the quotation patterns let inside the quotes: `[\S]`, and
      with `lineBreaks` also `\r` and `\n`. */
  predicate InQuote(c: char, lineBreaks: bool) {
    !IsSpace(c) || (lineBreaks && (c == '\r' || c == '\n'))
  }

  /** Where the lazy `“(...+?)”` match starting at `s[0]` closes, scanning
      from `s[j]`: the first `”` after at least one quoted character, with
      every character before it allowed. */
  function CloseAt(s: string, j: nat, lineBreaks: bool): (r: Option<nat>)
    requires 1 <= j
    ensures r.Some? ==> 2 <= r.value < |s| && j <= r.value && s[r.value] == '”'
    ensures r.Some? ==> forall k :: j <= k < r.value ==> InQuote(s[k], lineBreaks)
    decreases |s| - j
  {
    if j >= |s| then None
    else if 2 <= j && s[j] == '”' then Some(j)
    else if InQuote(s[j], lineBreaks) then CloseAt(s, j + 1, lineBreaks)
    else None
  }

  /** What the replacement callback does to a match: `replace('\n', '')`, or
      with `lineBreaks` `re.sub(r'[\r\n]', '', ...)`. */
  function DropBreaks(m: string, lineBreaks: bool): string {
    if lineBreaks then RemoveChar(RemoveChar(m, '\r'), '\n') else RemoveChar(m, '\n')
  }

  /** `re.sub(r'“([\S]+?)”', ...)` (or, with `lineBreaks`, the
      `[\S\r\n]` pattern): matches are tried left to right, and scanning
      resumes after each match. */
  function QuoteSub(s: string, lineBreaks: bool): string
    decreases |s|
  {
    if s == [] then []
    else if s[0] == '“' && CloseAt(s, 1, lineBreaks).Some? then
      var j := CloseAt(s, 1, lineBreaks).value;
      DropBreaks(s[..j + 1], lineBreaks) + QuoteSub(s[j + 1..], lineBreaks)
    else [s[0]] + QuoteSub(s[1..], lineBreaks)
  }

  /** The first quotation pattern never changes anything: its quoted
      characters are non-whitespace, so a match holds no `\n` to delete. */
  lemma {:induction false} FirstQuotePassIsIdentity(s: string)
    ensures QuoteSub(s, false) == s
    decreases |s|
  {
    if s != [] {
      if s[0] == '“' && CloseAt(s, 1, false).Some? {
        var j := CloseAt(s, 1, false).value;
        var m := s[..j + 1];
        MatchHasNoBreak(s);
        FirstQuotePassIsIdentity(s[j + 1..]);
        assert m + s[j + 1..] == s;
      } else {
        FirstQuotePassIsIdentity(s[1..]);
        assert [s[0]] + s[1..] == s;
      }
    }
  }

  /** A match of the first quotation pattern holds no `\n`, so deleting `\n` leaves it alone. */
  lemma MatchHasNoBreak(s: string)
    requires s != [] && s[0] == '“' && CloseAt(s, 1, false).Some?
    ensures '\n' !in s[..CloseAt(s, 1, false).value + 1]
    ensures DropBreaks(s[..CloseAt(s, 1, false).value + 1], false) == s[..CloseAt(s, 1, false).value + 1]
  {
    var j := CloseAt(s, 1, false).value;
    var m := s[..j + 1];
    forall k | 0 <= k < |m| ensures m[k] != '\n' {
      if 1 <= k < j {
        assert InQuote(s[k], false);
      }
    }
  }

  /** Without an opening `“` neither quotation pattern matches. */
  lemma {:induction false} QuoteSubWithoutQuotes(s: string, lineBreaks: bool)
    requires '“' !in s
    ensures QuoteSub(s, lineBreaks) == s
    decreases |s|
  {
    if s != [] {
      QuoteSubWithoutQuotes(s[1..], lineBreaks);
      assert [s[0]] + s[1..] == s;
    }
  }

  /** `re.sub(r's', '', line).strip().replace('s', '—')`. */
  function CleanLine(line: string): string {
    ReplaceChar(Strip(RemoveChar(line, 's')), 's', "—")
  }

  /** A cleaned line has no `s` (the final replace finds none, so it changes
      nothing) and no character the line did not have. */
  lemma CleanLineChars(line: string)
    ensures CleanLine(line) == Strip(RemoveChar(line, 's'))
    ensures 's' !in CleanLine(line)
    ensures forall c :: c in CleanLine(line) ==> c in line
  {
    var r := RemoveChar(line, 's');
    StripShape(r);
    ReplaceAbsent(Strip(r), 's', "—");
  }

  function CleanAll(lines: seq<string>): (r: seq<string>)
    ensures |r| == |lines|
  {
    seq(|lines|, i requires 0 <= i < |lines| => CleanLine(lines[i]))
  }

  /** `[line for line in lines if line]`. */
  function NonEmpty(lines: seq<string>): seq<string> {
    if lines == [] then []
    else NonEmpty(lines[..|lines| - 1]) + (if lines[|lines| - 1] != "" then [lines[|lines| - 1]] else [])
  }

  /** The filter keeps exactly the non-empty lines, and every line when none is empty. */
  lemma {:induction false} NonEmptyFacts(lines: seq<string>)
    ensures forall x :: x in NonEmpty(lines) <==> x in lines && x != ""
    ensures (forall i :: 0 <= i < |lines| ==> lines[i] != "") ==> NonEmpty(lines) == lines
  {
    if lines != [] {
      NonEmptyFacts(lines[..|lines| - 1]);
      assert lines == lines[..|lines| - 1] + [lines[|lines| - 1]];
    }
  }

  /** `process_file(lines)`. */
  function ProcessFile(lines: seq<string>): seq<string> {
    var raw := Join(Pieces(lines), "\n");
    var rejoined := QuoteSub(QuoteSub(raw, false), true);
    NonEmpty(CleanAll(Split(rejoined, '\n')))
  }

  /** No output line is empty, contains `s`, or contains a line break. */
  lemma ProcessFileShape(lines: seq<string>)
    ensures forall x :: x in ProcessFile(lines) ==> x != "" && 's' !in x && '\n' !in x
  {
    var rejoined := QuoteSub(QuoteSub(Join(Pieces(lines), "\n"), false), true);
    var parts := Split(rejoined, '\n');
    NonEmptyFacts(CleanAll(parts));
    forall x | x in ProcessFile(lines) ensures x != "" && 's' !in x && '\n' !in x {
      var i :| 0 <= i < |parts| && CleanAll(parts)[i] == x;
      CleanLineChars(parts[i]);
    }
  }

  /** Lines that are non-empty, stripped, and free of `s`, `。`, `“` and
      line breaks come out unchanged. */
  lemma ProcessFileKeepsCleanLines(lines: seq<string>)
    requires forall i :: 0 <= i < |lines| ==>
               && lines[i] != "" && IsStripped(lines[i])
               && 's' !in lines[i] && '。' !in lines[i] && '“' !in lines[i] && '\n' !in lines[i]
    ensures ProcessFile(lines) == lines
  {
    PiecesOfCleanLines(lines);
    var raw := Join(lines, "\n");
    if '“' in raw {
      JoinChars(lines, "\n", '“');
    }
    QuoteSubWithoutQuotes(raw, false);
    QuoteSubWithoutQuotes(raw, true);
    if lines == [] {
      assert Split(raw, '\n') == [""];
      assert CleanAll([""]) == [CleanLine("")];
      assert RemoveChar("", 's') == "" && Strip("") == "";
      assert CleanLine("") == "";
      assert NonEmpty([""]) == NonEmpty([]) + [];
    } else {
      SplitJoin(lines, '\n');
      forall i | 0 <= i < |lines| ensures CleanAll(lines)[i] == lines[i] {
        StripFixedPoint(lines[i]);
        ReplaceAbsent(lines[i], 's', "—");
      }
      assert CleanAll(lines) == lines;
      NonEmptyFacts(lines);
    }
  }

  /** Lines without `。` or line breaks are their own pieces. */
  lemma {:induction false} PiecesOfCleanLines(lines: seq<string>)
    requires forall i :: 0 <= i < |lines| ==> '。' !in lines[i] && '\n' !in lines[i]
    ensures Pieces(lines) == lines
  {
    if lines != [] {
      var last := lines[|lines| - 1];
      PiecesOfCleanLines(lines[..|lines| - 1]);
      ReplaceAbsent(last, '。', "。\n");
      SplitWhole(last, '\n');
      assert lines == lines[..|lines| - 1] + [last];
    }
  }

  /** `group_lines` raises `ValueError` for a zero group size (the step of `range`). */
  datatype GroupError = ZeroGroupSize

  /** Consecutive runs of `g` lines joined with spaces, the last run possibly shorter. */
  function Groups(lines: seq<string>, g: nat): seq<string>
    requires 0 < g
    decreases |lines|
  {
    if lines == [] then []
    else
      var m := if g < |lines| then g else |lines|;
      [Join(lines[..m], " ")] + Groups(lines[m..], g)
  }

  /** `group_lines(lines, group_size)`: an error for 0, nothing for a
      negative size (`range` with a negative step from 0 up is empty). */
  function GroupLinesOutcome(lines: seq<string>, groupSize: int): Result<seq<string>, GroupError> {
    if groupSize == 0 then Err(ZeroGroupSize)
    else if groupSize < 0 then Ok([])
    else Ok(Groups(lines, groupSize))
  }

  /** There are `ceil(len(lines) / g)` groups: the fewest groups of `g`
      lines that hold every line. */
  lemma {:induction false} GroupsCount(lines: seq<string>, g: nat)
    requires 0 < g
    ensures var c := |Groups(lines, g)|; (c - 1) * g < |lines| <= c * g
    decreases |lines|
  {
    if lines != [] {
      var n := |lines|;
      if g < n {
        GroupsCount(lines[g..], g);
        var c := |Groups(lines[g..], g)|;
        assert (c + 1) * g == c * g + g;
      } else {
        assert lines[..n] == lines && lines[n..] == [];
        assert Groups(lines, g) == [Join(lines, " ")] + Groups([], g);
      }
    }
  }

  /** Group `k` joins `lines[k*g : k*g+g]`. */
  lemma {:induction false} GroupsAt(lines: seq<string>, g: nat, k: nat)
    requires 0 < g
    requires k < |Groups(lines, g)|
    ensures k * g < |lines|
    ensures Groups(lines, g)[k] == Join(lines[k * g..if k * g + g < |lines| then k * g + g else |lines|], " ")
    decreases |lines|
  {
    var n := |lines|;
    var m := if g < n then g else n;
    var rest := lines[m..];
    assert Groups(lines, g) == [Join(lines[..m], " ")] + Groups(rest, g);
    if k == 0 {
      assert k * g == 0;
    } else {
      assert k - 1 < |Groups(rest, g)|;
      assert rest != [];
      assert m == g;
      GroupsAt(rest, g, k - 1);
      var a := (k - 1) * g;
      MulStep(k, g);
      var e := if a + g < |rest| then a + g else |rest|;
      SliceOfSuffix(lines, g, a, e);
    }
  }

  /** Group `k` starts one group size after group `k - 1`. */
  lemma MulStep(k: nat, g: nat)
    requires 0 < k
    ensures k * g == (k - 1) * g + g
  {
  }

  /** A slice of `lines[g..]` is the slice of `lines` shifted by `g`. */
  lemma SliceOfSuffix(lines: seq<string>, g: nat, a: nat, e: nat)
    requires g <= |lines| && a <= e <= |lines| - g
    ensures lines[g..][a..e] == lines[a + g..e + g]
  {
  }

  /** Joining all groups with a space gives the lines joined with a space. */
  lemma {:induction false} GroupsRejoin(lines: seq<string>, g: nat)
    requires 0 < g
    requires lines != []
    ensures Join(Groups(lines, g), " ") == Join(lines, " ")
    decreases |lines|
  {
    var m := if g < |lines| then g else |lines|;
    if m < |lines| {
      GroupsRejoin(lines[m..], g);
      JoinAppend(lines[..m], lines[m..], " ");
      assert lines[..m] + lines[m..] == lines;
    } else {
      assert lines[..m] == lines;
    }
  }

  /** Joining a concatenation of two non-empty lists. */
  lemma {:induction false} JoinAppend(a: seq<string>, b: seq<string>, sep: string)
    requires a != [] && b != []
    ensures Join(a + b, sep) == Join(a, sep) + sep + Join(b, sep)
  {
    if |a| > 1 {
      JoinAppend(a[1..], b, sep);
      assert (a + b)[1..] == a[1..] + b;
    } else {
      assert (a + b)[1..] == b;
    }
  }

  /** The loop of `group_lines`, stepping `i` by the group size. */
  method GroupLines(lines: seq<string>, groupSize: int) returns (r: Result<seq<string>, GroupError>)
    ensures r == GroupLinesOutcome(lines, groupSize)
  {
    if groupSize == 0 {
      return Err(ZeroGroupSize);
    }
    if groupSize < 0 {
      return Ok([]);
    }
    var grouped := [];
    var i := 0;
    ghost var rest := lines;
    while i < |lines|
      invariant 0 <= i
      invariant rest == if i <= |lines| then lines[i..] else []
      invariant grouped + Groups(rest, groupSize) == Groups(lines, groupSize)
      decreases |lines| - i
    {
      var end := if i + groupSize < |lines| then i + groupSize else |lines|;
      ghost var m := if groupSize < |rest| then groupSize else |rest|;
      assert rest[..m] == lines[i..end];
      grouped := grouped + [Join(lines[i..end], " ")];
      rest := rest[m..];
      i := i + groupSize;
    }
    assert grouped + [] == grouped;
    return Ok(grouped);
  }
}
