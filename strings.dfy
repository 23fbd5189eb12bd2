/**
 * `str::split` on a one-character separator, as both FEN parsers use it
 * (`fen.split(" ")`, `position.split("/")`): the pieces between separators,
 * empty pieces included, so a string with n separators has n + 1 pieces.
 */
module Strings {

  /** `s.split(sep).collect::<Vec<_>>()`. */
  function Split(s: string, sep: char): (r: seq<string>)
    ensures |r| >= 1
    ensures forall i :: 0 <= i < |r| ==> sep !in r[i]
    decreases |s|
  {
    if s == [] then [[]]
    else
      var rest := Split(s[1..], sep);
      if s[0] == sep then [[]] + rest
      else [[s[0]] + rest[0]] + rest[1..]
  }

  /** The pieces glued back together with `sep` between them. */
  function Join(parts: seq<string>, sep: char): string
  {
    if |parts| == 0 then []
    else if |parts| == 1 then parts[0]
    else parts[0] + [sep] + Join(parts[1..], sep)
  }

  /** Occurrences of `c` in `s`. */
  function Count(s: string, c: char): nat
  {
    if s == [] then 0 else (if s[0] == c then 1 else 0) + Count(s[1..], c)
  }

  /** Splitting loses nothing: joining the pieces restores the string, and
      there is one piece more than there are separators. */
  lemma {:induction false} JoinSplit(s: string, sep: char)
    ensures Join(Split(s, sep), sep) == s
    ensures |Split(s, sep)| == Count(s, sep) + 1
    decreases |s|
  {
    if s != [] {
      JoinSplit(s[1..], sep);
      var rest := Split(s[1..], sep);
      if s[0] == sep {
        assert Split(s, sep) == [[]] + rest;
        assert ([[]] + rest)[1..] == rest;
      } else {
        var r := Split(s, sep);
        assert r[0] == [s[0]] + rest[0] && r[1..] == rest[1..];
        if |rest| > 1 {
          JoinHead(rest, sep);
          JoinHead(r, sep);
          assert s == [s[0]] + s[1..];
        }
      }
    }
  }

  /** Joining a list of two or more pieces. */
  lemma JoinHead(parts: seq<string>, sep: char)
    requires |parts| > 1
    ensures Join(parts, sep) == parts[0] + [sep] + Join(parts[1..], sep)
  {
  }

  /** Splitting undoes joining pieces free of the separator. */
  lemma {:induction false} SplitJoin(parts: seq<string>, sep: char)
    requires |parts| >= 1
    requires forall i :: 0 <= i < |parts| ==> sep !in parts[i]
    ensures Split(Join(parts, sep), sep) == parts
    decreases |parts|, |parts[0]|
  {
    if |parts[0]| > 0 {
      var head := parts[0];
      var shorter := parts[0 := head[1..]];
      SplitJoin(shorter, sep);
      var s := Join(parts, sep);
      assert s == [head[0]] + Join(shorter, sep) by {
        if |parts| > 1 {
          assert shorter[1..] == parts[1..];
        }
      }
      assert s[1..] == Join(shorter, sep);
      assert shorter[0] == head[1..] && shorter[1..] == parts[1..];
      assert [head[0]] + head[1..] == head;
    } else if |parts| > 1 {
      SplitJoin(parts[1..], sep);
      var s := Join(parts, sep);
      assert s == [sep] + Join(parts[1..], sep);
      assert s[1..] == Join(parts[1..], sep);
    }
  }

  /** Every character of a piece is a character of the string other than
      the separator, and every such character lies in some piece. */
  lemma {:induction false} SplitChars(s: string, sep: char, c: char)
    ensures (exists i :: 0 <= i < |Split(s, sep)| && c in Split(s, sep)[i]) <==> (c in s && c != sep)
    decreases |s|
  {
    if s != [] {
      SplitChars(s[1..], sep, c);
      var rest := Split(s[1..], sep);
      var r := Split(s, sep);
      assert s == [s[0]] + s[1..];
      if s[0] == sep {
        assert r == [[]] + rest;
        if i :| 0 <= i < |r| && c in r[i] {
          assert i > 0 && rest[i - 1] == r[i];
        }
        if i :| 0 <= i < |rest| && c in rest[i] {
          assert r[i + 1] == rest[i];
        }
      } else {
        assert r[0] == [s[0]] + rest[0];
        if i :| 0 <= i < |r| && c in r[i] {
          if i > 0 {
            assert rest[i] == r[i];
          } else if c != s[0] {
            assert c in rest[0];
          }
        }
        if i :| 0 <= i < |rest| && c in rest[i] {
          assert i == 0 || r[i] == rest[i];
        }
        if c == s[0] {
          assert c in r[0];
        }
      }
    }
  }
}
