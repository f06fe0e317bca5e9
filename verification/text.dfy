/** The string operations of Rust's `str` that the command parsers use. */
module Text {
  import opened Wrappers

  /** `char::is_whitespace`: the characters with the Unicode White_Space property. */
  predicate IsWhitespace(c: char)
  {
    || ('\t' <= c <= '\r')
    || c == ' '
    || c == '\U{85}'
    || c == '\U{A0}'
    || c == '\U{1680}'
    || ('\U{2000}' <= c <= '\U{200A}')
    || c == '\U{2028}'
    || c == '\U{2029}'
    || c == '\U{202F}'
    || c == '\U{205F}'
    || c == '\U{3000}'
  }

  /** The position of the first `c` in `s`, or `|s|` when there is none. */
  function IndexOf(s: string, c: char): (i: nat)
    ensures i <= |s|
    ensures i < |s| ==> s[i] == c
    ensures forall j :: 0 <= j < i ==> s[j] != c
    decreases |s|
  {
    if |s| == 0 then 0
    else if s[0] == c then 0
    else 1 + IndexOf(s[1..], c)
  }

  /** `str::split_once`: the text before the first `c` and the text after it. */
  function SplitOnce(s: string, c: char): (r: Option<(string, string)>)
    ensures r.None? <==> c !in s
    ensures r.Some? ==> r.value.0 + [c] + r.value.1 == s && c !in r.value.0
  {
    var i := IndexOf(s, c);
    if i == |s| then None
    else
      assert s == s[..i] + [c] + s[i + 1..];
      Some((s[..i], s[i + 1..]))
  }

  /** `str::trim_start`. */
  function TrimStart(s: string): (r: string)
    ensures |r| <= |s| && r == s[|s| - |r|..]
    ensures forall k :: 0 <= k < |s| - |r| ==> IsWhitespace(s[k])
    ensures r == [] || !IsWhitespace(r[0])
    decreases |s|
  {
    if |s| > 0 && IsWhitespace(s[0]) then TrimStart(s[1..]) else s
  }

  /** `str::trim_end`. */
  function TrimEnd(s: string): (r: string)
    ensures |r| <= |s| && r == s[..|r|]
    ensures forall k :: |r| <= k < |s| ==> IsWhitespace(s[k])
    ensures r == [] || !IsWhitespace(r[|r| - 1])
    decreases |s|
  {
    if |s| > 0 && IsWhitespace(s[|s| - 1]) then TrimEnd(s[..|s| - 1]) else s
  }

  /** `str::trim`: leading and trailing whitespace removed. */
  function Trim(s: string): (r: string)
    ensures r == [] || (!IsWhitespace(r[0]) && !IsWhitespace(r[|r| - 1]))
  {
    TrimStart(TrimEnd(s))
  }

  /** Trailing whitespace does not survive `Trim`. */
  lemma {:induction false} TrimDropsTrailingSpace(s: string)
    ensures Trim(s + [' ']) == Trim(s)
  {
    assert (s + [' '])[..|s|] == s;
  }

  /**
    Splitting `line + " "` at its first space, as the clients do: the head is
    the word `w` (a word without spaces) exactly when the line is `w` itself
    or starts with `w` and a space; the tail is empty exactly when the line
    has no space; after `w` and a space the tail is the rest of the line,
    with the appended space.
  */
  lemma {:induction false} SplitAtFirstSpace(line: string, w: string)
    requires ' ' !in w
    ensures SplitOnce(line + [' '], ' ').Some?
    ensures var parts := SplitOnce(line + [' '], ' ').value;
            && (parts.0 == w <==> line == w || w + [' '] <= line)
            && (parts.1 == [] <==> ' ' !in line)
            && (parts.0 == w && line != w ==> parts.1 == line[|w| + 1..] + [' '])
  {
    var s := line + [' '];
    assert s[|line|] == ' ';
    var i := IndexOf(s, ' ');
    var parts := SplitOnce(s, ' ').value;
    assert parts == (s[..i], s[i + 1..]);
    if ' ' !in line {
      assert forall j :: 0 <= j < |line| ==> s[j] == line[j] != ' ';
      assert i == |line|;
      assert s[..i] == line;
      assert (w + [' '])[|w|] == ' ';
      assert !(w + [' '] <= line);
    } else {
      var k :| 0 <= k < |line| && line[k] == ' ';
      assert s[k] == ' ';
      assert i < |line|;
      assert line[i] == ' ';
      assert s[..i] == line[..i];
      assert |parts.1| > 0;
      if parts.0 == w {
        assert i == |w|;
        assert w + [' '] == line[..i + 1];
        assert parts.1 == line[i + 1..] + [' '];
      }
      if w + [' '] <= line {
        assert line[|w|] == ' ';
        forall j | 0 <= j < |w| ensures s[j] != ' ' {
          assert s[j] == w[j];
        }
        assert i == |w|;
        assert s[..i] == w;
      }
    }
  }
}
