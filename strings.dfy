/**
 * The two JavaScript string operations the tokeniser is built from:
 * `s.split(sep)` for a one-character separator and `parts.join(sep)`.
 */
module Strings {

  /**
   * `s.split(sep)`: the maximal pieces of `s` between occurrences of `sep`.
   * Two adjacent separators, or one at either end, give an empty piece;
   * the empty string splits into one empty piece.
   */
  function Split(s: string, sep: char): (pieces: seq<string>)
    ensures |pieces| >= 1
    ensures forall i :: 0 <= i < |pieces| ==> sep !in pieces[i]
    decreases |s|
  {
    if s == [] then [""]
    else
      var rest := Split(s[1..], sep);
      if s[0] == sep then [""] + rest
      else [[s[0]] + rest[0]] + rest[1..]
  }

  /** Concatenation is associative; stated once so that proofs need not rediscover it. */
  lemma AppendAssociative<T>(a: seq<T>, b: seq<T>, c: seq<T>)
    ensures (a + b) + c == a + (b + c)
  {
  }

  /** `parts.join(sep)`: the parts with one `sep` between neighbours; `[]` joins to "". */
  function Join(parts: seq<string>, sep: string): (r: string)
    ensures |parts| >= 1 ==> parts[0] <= r
    decreases |parts|
  {
    if |parts| == 0 then ""
    else if |parts| == 1 then parts[0]
    else parts[0] + sep + Join(parts[1..], sep)
  }

  /** Joining the pieces back with the separator restores the original string. */
  lemma {:induction false} JoinSplit(s: string, sep: char)
    ensures Join(Split(s, sep), [sep]) == s
    decreases |s|
  {
    if s != [] {
      var rest := Split(s[1..], sep);
      JoinSplit(s[1..], sep);
      assert s == [s[0]] + s[1..];
      if s[0] == sep {
        assert Split(s, sep) == [""] + rest;
        assert ([""] + rest)[1..] == rest;
        assert Join([""] + rest, [sep]) == "" + [sep] + Join(rest, [sep]);
      } else {
        var first := [s[0]] + rest[0];
        assert Split(s, sep) == [first] + rest[1..];
        if |rest| == 1 {
          assert Join([first], [sep]) == first;
        } else {
          assert ([first] + rest[1..])[1..] == rest[1..];
          assert Join(rest, [sep]) == rest[0] + [sep] + Join(rest[1..], [sep]);
          assert Join([first] + rest[1..], [sep]) == first + [sep] + Join(rest[1..], [sep]);
        }
      }
    }
  }

  /** Splitting a separator-free run followed by `t` glues the run onto the first piece of `t`. */
  lemma {:induction false} SplitAfterRun(w: string, t: string, sep: char)
    requires sep !in w
    ensures Split(w + t, sep) == [w + Split(t, sep)[0]] + Split(t, sep)[1..]
    decreases |w|
  {
    if w == [] {
      assert w + t == t;
      var pieces := Split(t, sep);
      assert w + pieces[0] == pieces[0];
      assert pieces == [pieces[0]] + pieces[1..];
    } else {
      SplitAfterRun(w[1..], t, sep);
      assert (w + t)[0] == w[0];
      assert (w + t)[1..] == w[1..] + t;
      assert [w[0]] + (w[1..] + Split(t, sep)[0]) == w + Split(t, sep)[0];
    }
  }

  /** Splitting a string that starts with the separator yields an empty first piece. */
  lemma SplitAfterSeparator(t: string, sep: char)
    ensures Split([sep] + t, sep) == [""] + Split(t, sep)
  {
    assert ([sep] + t)[1..] == t;
  }

  /**
   * Split inverts Join on separator-free parts: together with JoinSplit this says
   * that the pieces are exactly the maximal separator-free runs.
   */
  lemma {:induction false} SplitJoin(parts: seq<string>, sep: char)
    requires |parts| >= 1
    requires forall i :: 0 <= i < |parts| ==> sep !in parts[i]
    ensures Split(Join(parts, [sep]), sep) == parts
    decreases |parts|
  {
    if |parts| == 1 {
      SplitAfterRun(parts[0], "", sep);
      assert parts[0] + "" == parts[0];
    } else {
      var tail := Join(parts[1..], [sep]);
      SplitJoin(parts[1..], sep);
      assert Join(parts, [sep]) == parts[0] + ([sep] + tail);
      SplitAfterRun(parts[0], [sep] + tail, sep);
      SplitAfterSeparator(tail, sep);
      assert parts[0] + "" == parts[0];
      assert parts == [parts[0]] + parts[1..];
    }
  }
}
