/** The Python `str` operations the core relies on: `isspace`/`strip`, `lower`,
    `split` on one character, `join`, `replace`, `in` on strings, and the
    `splitext(basename(path))[0]` stem of a file path. */
module Text {

  /** `str.isspace()` for one character: the ASCII whitespace, the four
      separator controls and the Unicode spaces. */
  predicate IsSpace(c: char) {
    || c == ' '
    || ('\t' <= c <= '\r')
    || ('\U{1c}' <= c <= '\U{1f}')
    || c == '\U{85}' || c == '\U{a0}' || c == '\U{1680}'
    || ('\U{2000}' <= c <= '\U{200a}')
    || c == '\U{2028}' || c == '\U{2029}' || c == '\U{202f}' || c == '\U{205f}' || c == '\U{3000}'
  }

  /** `s.lstrip()`. */
  function TrimStart(s: string): string {
    if s != [] && IsSpace(s[0]) then TrimStart(s[1..]) else s
  }

  /** `s.rstrip()`. */
  function TrimEnd(s: string): string {
    if s != [] && IsSpace(s[|s| - 1]) then TrimEnd(s[..|s| - 1]) else s
  }

  /** `lstrip()` removes a whitespace prefix and nothing else. */
  lemma {:induction false} TrimStartShape(s: string)
    ensures var r := TrimStart(s);
            && |r| <= |s| && r == s[|s| - |r|..]
            && (r == [] || !IsSpace(r[0]))
            && forall i :: 0 <= i < |s| - |r| ==> IsSpace(s[i])
  {
    if s != [] && IsSpace(s[0]) {
      var t := s[1..];
      TrimStartShape(t);
      var r := TrimStart(t);
      assert t[|t| - |r|..] == s[|s| - |r|..];
      forall i | 0 <= i < |s| - |r| ensures IsSpace(s[i]) {
        if i > 0 {
          assert s[i] == t[i - 1];
        }
      }
    }
  }

  /** `rstrip()` removes a whitespace suffix and nothing else. */
  lemma {:induction false} TrimEndShape(s: string)
    ensures var r := TrimEnd(s);
            && |r| <= |s| && r == s[..|r|]
            && (r == [] || !IsSpace(r[|r| - 1]))
            && forall i :: |r| <= i < |s| ==> IsSpace(s[i])
  {
    if s != [] && IsSpace(s[|s| - 1]) {
      TrimEndShape(s[..|s| - 1]);
    }
  }

  /** `s.strip()`. */
  function Strip(s: string): string {
    TrimEnd(TrimStart(s))
  }

  /** A string that `strip()` leaves alone: empty, or no whitespace at either end. */
  predicate IsStripped(s: string) {
    s == [] || (!IsSpace(s[0]) && !IsSpace(s[|s| - 1]))
  }

  /** Every character of `s.strip()` is a character of `s`, and the result has
      no surrounding whitespace. */
  lemma StripShape(s: string)
    ensures forall c :: c in Strip(s) ==> c in s
    ensures IsStripped(Strip(s))
  {
    var t := TrimStart(s);
    var r := TrimEnd(t);
    TrimStartShape(s);
    TrimEndShape(t);
    forall c | c in r ensures c in s {
      var i :| 0 <= i < |r| && r[i] == c;
      assert t[i] == c;
      assert s[|s| - |t| + i] == c;
    }
    if r != [] {
      assert r[0] == t[0];
    }
  }

  /** `strip()` is the identity exactly on strings without surrounding whitespace. */
  lemma StripFixedPoint(s: string)
    ensures Strip(s) == s <==> IsStripped(s)
  {
    if IsStripped(s) {
      assert TrimStart(s) == s;
      assert TrimEnd(s) == s;
    } else {
      StripShape(s);
    }
  }

  /** `strip()` is idempotent. */
  lemma StripIdempotent(s: string)
    ensures Strip(Strip(s)) == Strip(s)
  {
    StripShape(s);
    StripFixedPoint(Strip(s));
  }

  /** `s and s.strip()` is truthy: some character of `s` is not whitespace. */
  predicate HasNonSpace(s: string) {
    s != [] && (!IsSpace(s[0]) || HasNonSpace(s[1..]))
  }

  /** `HasNonSpace` is exactly "`strip()` leaves something". */
  lemma {:induction false} HasNonSpaceIffStripNonEmpty(s: string)
    ensures HasNonSpace(s) <==> Strip(s) != []
  {
    if s == [] {
    } else if IsSpace(s[0]) {
      HasNonSpaceIffStripNonEmpty(s[1..]);
      assert TrimStart(s) == TrimStart(s[1..]);
    } else {
      assert TrimStart(s) == s;
      TrimEndShape(s);
    }
  }

  /** ASCII `str.lower()` for one character. */
  function LowerChar(c: char): char {
    if 'A' <= c <= 'Z' then (c as int + 32) as char else c
  }

  /** `s.lower()` (ASCII letters only). */
  function Lower(s: string): (r: string)
    ensures |r| == |s|
  {
    seq(|s|, i requires 0 <= i < |s| => LowerChar(s[i]))
  }

  /** `s.split(sep)` for a one-character separator: always at least one piece,
      empty pieces kept, and no piece contains the separator. */
  function Split(s: string, sep: char): (r: seq<string>)
    ensures |r| >= 1
    ensures forall i :: 0 <= i < |r| ==> sep !in r[i]
    ensures forall i, c :: 0 <= i < |r| && c in r[i] ==> c in s
  {
    if s == [] then [""]
    else
      var rest := Split(s[1..], sep);
      assert forall c :: c in s[1..] ==> c in s;
      if s[0] == sep then [""] + rest
      else [[s[0]] + rest[0]] + rest[1..]
  }

  /** `sep.join(parts)`. */
  function Join(parts: seq<string>, sep: string): string {
    if parts == [] then ""
    else if |parts| == 1 then parts[0]
    else parts[0] + sep + Join(parts[1..], sep)
  }

  /** Every character of a join comes from a part or from the separator. */
  lemma {:induction false} JoinChars(parts: seq<string>, sep: string, c: char)
    requires c in Join(parts, sep)
    ensures c in sep || exists i :: 0 <= i < |parts| && c in parts[i]
  {
    if |parts| > 1 {
      if c !in parts[0] && c !in sep {
        JoinChars(parts[1..], sep, c);
        var i :| 0 <= i < |parts[1..]| && c in parts[1..][i];
        assert parts[i + 1] == parts[1..][i];
      }
    }
  }

  /** A piece without the separator, followed by the separator, splits off as one piece. */
  lemma {:induction false} SplitAfterPiece(a: string, b: string, sep: char)
    requires sep !in a
    ensures Split(a + [sep] + b, sep) == [a] + Split(b, sep)
  {
    if a == [] {
      assert a + [sep] + b == [sep] + b;
      assert ([sep] + b)[1..] == b;
    } else {
      SplitAfterPiece(a[1..], b, sep);
      assert (a + [sep] + b)[1..] == a[1..] + [sep] + b;
      assert [a[0]] + a[1..] == a;
    }
  }

  /** A string without the separator splits into itself. */
  lemma {:induction false} SplitWhole(a: string, sep: char)
    requires sep !in a
    ensures Split(a, sep) == [a]
  {
    if a != [] {
      SplitWhole(a[1..], sep);
      assert [a[0]] + a[1..] == a;
    }
  }

  /** Splitting a join on the same one-character separator gives the parts back,
      provided there is at least one part and none contains the separator. */
  lemma {:induction false} SplitJoin(parts: seq<string>, sep: char)
    requires parts != []
    requires forall i :: 0 <= i < |parts| ==> sep !in parts[i]
    ensures Split(Join(parts, [sep]), sep) == parts
  {
    if |parts| == 1 {
      SplitWhole(parts[0], sep);
    } else {
      SplitJoin(parts[1..], sep);
      SplitAfterPiece(parts[0], Join(parts[1..], [sep]), sep);
      assert [parts[0]] + parts[1..] == parts;
    }
  }

  /** `s.replace(c, t)` for a one-character pattern. */
  function ReplaceChar(s: string, c: char, t: string): string {
    if s == [] then [] else (if s[0] == c then t else [s[0]]) + ReplaceChar(s[1..], c, t)
  }

  /** Replacing a character that does not occur changes nothing. */
  lemma {:induction false} ReplaceAbsent(s: string, c: char, t: string)
    requires c !in s
    ensures ReplaceChar(s, c, t) == s
  {
    if s != [] {
      ReplaceAbsent(s[1..], c, t);
      assert [s[0]] + s[1..] == s;
    }
  }

  /** Characters of `s.replace(c, t)` come from `s` (other than `c`) or from `t`. */
  lemma {:induction false} ReplaceChars(s: string, c: char, t: string)
    ensures forall x :: x in ReplaceChar(s, c, t) ==> (x in s && x != c) || x in t
  {
    if s != [] {
      ReplaceChars(s[1..], c, t);
    }
  }

  /** `re.sub(c, '', s)`: every occurrence of `c` deleted, nothing else touched. */
  function RemoveChar(s: string, c: char): (r: string)
    ensures c !in r
    ensures forall x :: x in r ==> x in s
    ensures c !in s ==> r == s
  {
    if s == [] then []
    else
      var rest := RemoveChar(s[1..], c);
      if s[0] == c then rest
      else
        assert [s[0]] + s[1..] == s;
        [s[0]] + rest
  }

  /** Python's `w in s` on strings. */
  predicate IsSubstring(w: string, s: string) {
    w <= s || (s != [] && IsSubstring(w, s[1..]))
  }

  /** The empty string is a substring of every string. */
  lemma EmptyIsSubstring(s: string)
    ensures IsSubstring("", s)
  {
  }

  /** `s.rfind(c)`: the last position of `c`, or -1. */
  function LastIndexOf(s: string, c: char): (k: int)
    ensures -1 <= k < |s|
    ensures 0 <= k ==> s[k] == c
    ensures forall j :: k < j < |s| ==> s[j] != c
  {
    if s == [] then -1
    else if s[|s| - 1] == c then |s| - 1
    else LastIndexOf(s[..|s| - 1], c)
  }

  /** `os.path.basename(p)`: what follows the last `/`. */
  function BaseName(p: string): (r: string)
    ensures '/' !in r
  {
    p[LastIndexOf(p, '/') + 1..]
  }

  /** `os.path.splitext(os.path.basename(p))[0]`: the base name without the text
      from its last dot, unless that dot is preceded only by dots. */
  function Stem(p: string): (r: string)
    ensures '/' !in r
    ensures r <= BaseName(p)
  {
    var b := BaseName(p);
    var dot := LastIndexOf(b, '.');
    if 0 < dot && exists i :: 0 <= i < dot && b[i] != '.' then b[..dot] else b
  }
}
