/** The two `java.lang.String` operations the repositories rely on:
    `trim()` (used by the blank-id checks) and `split` on a one-character,
    non-regex separator (used to parse conversation ids). */
module JavaStrings {

  /** `trim()` removes characters whose code is at most U+0020 from both ends. */
  predicate Trimmable(c: char) {
    c <= ' '
  }

  function TrimStart(s: string): (t: string)
    ensures |t| <= |s| && t == s[|s| - |t|..]
    ensures |t| > 0 ==> !Trimmable(t[0])
    ensures forall i :: 0 <= i < |s| - |t| ==> Trimmable(s[i])
  {
    if |s| > 0 && Trimmable(s[0]) then TrimStart(s[1..]) else s
  }

  function TrimEnd(s: string): (t: string)
    ensures |t| <= |s| && t == s[..|t|]
    ensures |t| > 0 ==> !Trimmable(t[|t| - 1])
    ensures forall i :: |t| <= i < |s| ==> Trimmable(s[i])
  {
    if |s| > 0 && Trimmable(s[|s| - 1]) then TrimEnd(s[..|s| - 1]) else s
  }

  function Trim(s: string): string {
    TrimEnd(TrimStart(s))
  }

  /** `s.trim().isEmpty()` */
  predicate IsBlank(s: string) {
    Trim(s) == ""
  }

  /** A string is blank exactly when every character of it is trimmable. */
  lemma BlankIffAllTrimmable(s: string)
    ensures IsBlank(s) <==> forall i :: 0 <= i < |s| ==> Trimmable(s[i])
  {
    var a := TrimStart(s);
    if forall i :: 0 <= i < |s| ==> Trimmable(s[i]) {
      if |a| > 0 {
        assert a[0] == s[|s| - |a|];
      }
    } else {
      var j :| 0 <= j < |s| && !Trimmable(s[j]);
      assert |s| - |a| <= j;
      assert a[j - (|s| - |a|)] == s[j];
      assert |a| > 0;
    }
  }

  /** Position of the first `c` in `s`. */
  function IndexOf(s: string, c: char): (i: nat)
    requires c in s
    ensures i < |s| && s[i] == c && c !in s[..i]
  {
    if s[0] == c then 0 else 1 + IndexOf(s[1..], c)
  }

  /** The text before the first `c`, or all of `s` when it has none. */
  function Before(s: string, c: char): string {
    if c in s then s[..IndexOf(s, c)] else s
  }

  /** The text after the first `c`. */
  function After(s: string, c: char): string
    requires c in s
  {
    s[IndexOf(s, c) + 1..]
  }

  /** Some character of `s` is not `sep`. */
  predicate HasContent(s: string, sep: char) {
    exists j :: 0 <= j < |s| && s[j] != sep
  }

  /** `String.join(sep, parts)` */
  function Join(parts: seq<string>, sep: char): string {
    if |parts| == 0 then ""
    else if |parts| == 1 then parts[0]
    else parts[0] + [sep] + Join(parts[1..], sep)
  }

  /** The pieces between every two consecutive separators, empty pieces included. */
  function Pieces(s: string, sep: char): (parts: seq<string>)
    ensures |parts| >= 1
    ensures forall i :: 0 <= i < |parts| ==> sep !in parts[i]
    ensures Join(parts, sep) == s
    ensures parts[0] == Before(s, sep)
    decreases |s|
  {
    if sep !in s then [s]
    else
      var i := IndexOf(s, sep);
      var rest := Pieces(s[i + 1..], sep);
      assert ([s[..i]] + rest)[1..] == rest;
      assert s == s[..i] + [sep] + s[i + 1..];
      [s[..i]] + rest
  }

  /** Removes the empty strings at the end of `parts`. */
  function DropTrailingEmpty(parts: seq<string>): (r: seq<string>)
    ensures |r| <= |parts| && r == parts[..|r|]
    ensures |r| > 0 ==> r[|r| - 1] != ""
    ensures forall i :: |r| <= i < |parts| ==> parts[i] == ""
  {
    if |parts| > 0 && parts[|parts| - 1] == "" then DropTrailingEmpty(parts[..|parts| - 1]) else parts
  }

  /** `s.split(sep)` for a separator that is not a regex metacharacter: no
      occurrence gives `[s]` (even for the empty string); otherwise the
      string is cut at every occurrence and trailing empty strings are
      removed, leading ones kept. */
  function Split(s: string, sep: char): (parts: seq<string>)
    ensures sep !in s ==> parts == [s]
    ensures sep in s ==> parts <= Pieces(s, sep) && (|parts| > 0 ==> parts[|parts| - 1] != "")
    ensures sep in s ==> forall i :: |parts| <= i < |Pieces(s, sep)| ==> Pieces(s, sep)[i] == ""
  {
    if sep !in s then [s]
    else DropTrailingEmpty(Pieces(s, sep))
  }

  /** Splitting undoes joining: the pieces of a joined sequence of
      separator-free strings are those strings. */
  lemma {:induction false} PiecesOfJoin(parts: seq<string>, sep: char)
    requires |parts| >= 1
    requires forall i :: 0 <= i < |parts| ==> sep !in parts[i]
    ensures Pieces(Join(parts, sep), sep) == parts
  {
    if |parts| > 1 {
      var s := Join(parts, sep);
      var tail := Join(parts[1..], sep);
      assert s == parts[0] + [sep] + tail;
      assert s[|parts[0]|] == sep;
      assert s[..|parts[0]|] == parts[0];
      assert IndexOf(s, sep) == |parts[0]|;
      assert s[|parts[0]| + 1..] == tail;
      PiecesOfJoin(parts[1..], sep);
      assert [parts[0]] + parts[1..] == parts;
    }
  }

  /** Some string of `parts` is non-empty. */
  predicate SomeNonEmpty(parts: seq<string>) {
    exists i :: 0 <= i < |parts| && parts[i] != ""
  }

  /** A non-separator character lands in a non-empty piece. */
  lemma {:induction false} ContentGivesPiece(s: string, sep: char)
    requires HasContent(s, sep)
    ensures SomeNonEmpty(Pieces(s, sep))
    decreases |s|
  {
    var p := Pieces(s, sep);
    var j :| 0 <= j < |s| && s[j] != sep;
    if sep !in s {
      assert p[0] == s;
    } else {
      var i := IndexOf(s, sep);
      var rest := s[i + 1..];
      assert p == [s[..i]] + Pieces(rest, sep);
      if j < i {
        assert p[0][j] == s[j];
      } else {
        assert rest[j - i - 1] == s[j];
        ContentGivesPiece(rest, sep);
        var k :| 0 <= k < |Pieces(rest, sep)| && Pieces(rest, sep)[k] != "";
        assert p[k + 1] == Pieces(rest, sep)[k];
      }
    }
  }

  /** A non-empty piece holds a non-separator character. */
  lemma PieceGivesContent(s: string, sep: char)
    requires SomeNonEmpty(Pieces(s, sep))
    ensures HasContent(s, sep)
  {
    var p := Pieces(s, sep);
    var k :| 0 <= k < |p| && p[k] != "";
    var c := p[k][0];
    assert c in p[k];
    assert c != sep;
    assert c in Join(p, sep) by { JoinContains(p, sep, k); }
    var j :| 0 <= j < |s| && s[j] == c;
  }

  /** Every character of a part occurs in the joined string. */
  lemma {:induction false} JoinContains(parts: seq<string>, sep: char, k: nat)
    requires k < |parts| && parts[k] != ""
    ensures parts[k][0] in Join(parts, sep)
  {
    if |parts| > 1 {
      var tail := Join(parts[1..], sep);
      assert Join(parts, sep) == parts[0] + [sep] + tail;
      if k == 0 {
        assert Join(parts, sep)[0] == parts[0][0];
      } else {
        JoinContains(parts[1..], sep, k - 1);
        var j :| 0 <= j < |tail| && tail[j] == parts[k][0];
        assert Join(parts, sep)[|parts[0]| + 1 + j] == tail[j];
      }
    }
  }

  /** Some piece is non-empty exactly when the string has a non-separator character. */
  lemma PiecesHaveContent(s: string, sep: char)
    ensures SomeNonEmpty(Pieces(s, sep)) <==> HasContent(s, sep)
  {
    if HasContent(s, sep) {
      ContentGivesPiece(s, sep);
    }
    if SomeNonEmpty(Pieces(s, sep)) {
      PieceGivesContent(s, sep);
    }
  }

  /** `split` of a string that contains the separator is empty exactly when
      the string is nothing but separators. */
  lemma SplitEmpty(s: string, sep: char)
    requires sep in s
    ensures |Split(s, sep)| == 0 <==> !HasContent(s, sep)
  {
    var p := Pieces(s, sep);
    var r := Split(s, sep);
    PiecesHaveContent(s, sep);
    if |r| == 0 {
      assert forall k :: 0 <= k < |p| ==> p[k] == "";
    } else {
      assert p[|r| - 1] != "";
    }
  }

  /** What `split` yields at positions 0 and 1 for a string that contains the
      separator: the text before the first separator and the text between the
      first and second one, present only when enough non-empty pieces survive
      the removal of trailing empty strings. */
  lemma SplitFirstTwo(s: string, sep: char)
    requires sep in s
    ensures |Split(s, sep)| == 0 <==> !HasContent(s, sep)
    ensures |Split(s, sep)| >= 2 <==> HasContent(After(s, sep), sep)
    ensures |Split(s, sep)| >= 1 ==> Split(s, sep)[0] == Before(s, sep)
    ensures |Split(s, sep)| >= 2 ==> Split(s, sep)[1] == Before(After(s, sep), sep)
  {
    SplitEmpty(s, sep);
    var p := Pieces(s, sep);
    var r := Split(s, sep);
    var rest := After(s, sep);
    assert p == [s[..IndexOf(s, sep)]] + Pieces(rest, sep);
    PiecesHaveContent(rest, sep);
    if |r| >= 2 {
      assert Pieces(rest, sep)[|r| - 2] == p[|r| - 1];
    }
  }

  /** Splitting `a`, the separator and `b` gives back `[a, b]` when neither
      part holds the separator and `b` is not empty (an empty `b` would be
      dropped as a trailing empty string). */
  lemma SplitJoinedPair(a: string, b: string, sep: char)
    requires sep !in a && sep !in b && b != ""
    ensures Split(a + [sep] + b, sep) == [a, b]
  {
    var parts := [a, b];
    assert parts[1..] == [b];
    assert Join(parts, sep) == a + [sep] + b;
    PiecesOfJoin(parts, sep);
    assert (a + [sep] + b)[|a|] == sep;
  }
}
