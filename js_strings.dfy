/**
 * The JavaScript string operations the modelled code relies on:
 * `String.prototype.split` with a one-character separator, `Array.prototype.join`
 * and `String.prototype.startsWith`.
 */
module JsStrings {

  /** `s.startsWith(p)`. */
  predicate HasPrefix(s: string, p: string) {
    |p| <= |s| && s[..|p|] == p
  }

  /** Number of occurrences of `c` in `s`. */
  function Occurrences(s: string, c: char): nat {
    if |s| == 0 then 0 else (if s[0] == c then 1 else 0) + Occurrences(s[1..], c)
  }

  /**
   * `s.split(sep)` for a one-character separator: the maximal pieces between
   * separators, empty pieces included, so that "" gives [""] and "a," gives ["a", ""].
   */
  function Split(s: string, sep: char): (parts: seq<string>)
    ensures |parts| == Occurrences(s, sep) + 1
    ensures forall i :: 0 <= i < |parts| ==> sep !in parts[i]
  {
    if |s| == 0 then [""]
    else
      var rest := Split(s[1..], sep);
      if s[0] == sep then [""] + rest
      else [[s[0]] + rest[0]] + rest[1..]
  }

  /** `parts.join(sep)`; the empty array joins to "". */
  function Join(parts: seq<string>, sep: char): string {
    if |parts| == 0 then ""
    else if |parts| == 1 then parts[0]
    else parts[0] + [sep] + Join(parts[1..], sep)
  }

  /** Joining the pieces of a split with the same separator restores the string. */
  lemma {:induction false} JoinSplit(s: string, sep: char)
    ensures Join(Split(s, sep), sep) == s
  {
    if |s| > 0 {
      var rest := Split(s[1..], sep);
      JoinSplit(s[1..], sep);
      if s[0] == sep {
        assert Split(s, sep) == [""] + rest;
        assert s == [sep] + s[1..];
      } else {
        var parts := Split(s, sep);
        assert parts == [[s[0]] + rest[0]] + rest[1..];
        if |rest| == 1 {
          assert s == [s[0]] + s[1..];
        } else {
          assert parts[1..] == rest[1..];
          assert Join(rest, sep) == rest[0] + [sep] + Join(rest[1..], sep);
          assert s == [s[0]] + s[1..];
        }
      }
    }
  }

  /** Splitting a join of separator-free pieces gives the pieces back. */
  lemma {:induction false} SplitJoin(parts: seq<string>, sep: char)
    requires |parts| >= 1
    requires forall i :: 0 <= i < |parts| ==> sep !in parts[i]
    ensures Split(Join(parts, sep), sep) == parts
  {
    if |parts| == 1 {
      SplitPiece(parts[0], sep, []);
      assert parts[0] + [] == parts[0];
    } else {
      var tail := Join(parts[1..], sep);
      SplitJoin(parts[1..], sep);
      SplitPiece(parts[0], sep, [sep] + tail);
      assert Join(parts, sep) == parts[0] + ([sep] + tail);
      var after := Split([sep] + tail, sep);
      assert after == [""] + Split(tail, sep) by {
        assert ([sep] + tail)[1..] == tail;
      }
      assert parts[0] + after[0] == parts[0];
      assert after[1..] == parts[1..];
      assert parts == [parts[0]] + parts[1..];
    }
  }

  /** A separator-free piece in front of `rest` is glued to the first piece of `rest`'s split. */
  lemma {:induction false} SplitPiece(piece: string, sep: char, rest: string)
    requires sep !in piece
    ensures Split(piece + rest, sep) == [piece + Split(rest, sep)[0]] + Split(rest, sep)[1..]
  {
    if |piece| > 0 {
      SplitPiece(piece[1..], sep, rest);
      assert (piece + rest)[1..] == piece[1..] + rest;
      assert (piece + rest)[0] == piece[0];
      assert [piece[0]] + (piece[1..] + Split(rest, sep)[0]) == piece + Split(rest, sep)[0];
    } else {
      var after := Split(rest, sep);
      assert piece + rest == rest;
      assert piece + after[0] == after[0];
      assert [after[0]] + after[1..] == after;
    }
  }
}
