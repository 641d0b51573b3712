/** Tokenisation as the parser does it: Rust's `str::split` with a one-character
    separator, the inverse join, and the `join_str_iter` fold that renders the
    unconsumed tokens of a line into an error payload. */
module Tokens {

  /** The pieces of `s` between occurrences of `sep`, in order, as `str::split`
      yields them: always at least one piece, empty pieces kept (so `""` gives
      `[""]`, and two adjacent separators give an empty piece between them). */
  function Split(s: string, sep: char): (parts: seq<string>)
    ensures |parts| >= 1
    ensures forall k | 0 <= k < |parts| :: sep !in parts[k]
    // the first piece is the longest separator-free prefix of s
    ensures parts[0] <= s
    ensures |parts[0]| < |s| ==> s[|parts[0]|] == sep
    decreases |s|
  {
    if |s| == 0 then [""]
    else
      var rest := Split(s[1..], sep);
      if s[0] == sep then [""] + rest
      else [[s[0]] + rest[0]] + rest[1..]
  }

  /** The pieces glued back together with one `sep` between neighbours. */
  function JoinWith(parts: seq<string>, sep: char): string
    decreases |parts|
  {
    if |parts| == 0 then ""
    else if |parts| == 1 then parts[0]
    else parts[0] + [sep] + JoinWith(parts[1..], sep)
  }

  /** `join_str_iter`: a left fold that appends every token followed by one space. */
  function JoinStrIter(tokens: seq<string>): (r: string)
    ensures r == "" <==> |tokens| == 0
    ensures |tokens| > 0 ==> |r| >= 1 && r[|r| - 1] == ' '
    decreases |tokens|
  {
    if |tokens| == 0 then ""
    else JoinStrIter(tokens[..|tokens| - 1]) + tokens[|tokens| - 1] + " "
  }

  /** Joining the pieces of a split gives back the original text. */
  lemma {:induction false} JoinSplit(s: string, sep: char)
    ensures JoinWith(Split(s, sep), sep) == s
    decreases |s|
  {
    if |s| > 0 {
      var rest := Split(s[1..], sep);
      JoinSplit(s[1..], sep);
      if s[0] == sep {
        assert ([""] + rest)[1..] == rest;
      } else if |rest| > 1 {
        var parts := [[s[0]] + rest[0]] + rest[1..];
        assert parts[1..] == rest[1..];
        assert JoinWith(rest, sep) == rest[0] + [sep] + JoinWith(rest[1..], sep);
      }
    }
  }

  /** Text without the separator is a single piece. */
  lemma {:induction false} SplitWithoutSep(s: string, sep: char)
    requires sep !in s
    ensures Split(s, sep) == [s]
    decreases |s|
  {
    if |s| > 0 {
      assert sep !in s[1..];
      SplitWithoutSep(s[1..], sep);
      assert [s[0]] + s[1..] == s;
    }
  }

  /** A separator-free head followed by a separator splits off as the first piece. */
  lemma {:induction false} SplitAfterHead(head: string, tail: string, sep: char)
    requires sep !in head
    ensures Split(head + [sep] + tail, sep) == [head] + Split(tail, sep)
    decreases |head|
  {
    var s := head + [sep] + tail;
    if |head| == 0 {
      assert s[1..] == tail;
    } else {
      assert s[1..] == head[1..] + [sep] + tail;
      assert sep !in head[1..];
      SplitAfterHead(head[1..], tail, sep);
      assert [head[0]] + head[1..] == head;
    }
  }

  /** The text before the first separator is the first piece; the rest are
      the pieces of the text after it. */
  lemma SplitAtFirst(s: string, n: nat, sep: char)
    requires n < |s| && sep !in s[..n] && s[n] == sep
    ensures Split(s, sep) == [s[..n]] + Split(s[n + 1..], sep)
  {
    assert s == s[..n] + [sep] + s[n + 1..];
    SplitAfterHead(s[..n], s[n + 1..], sep);
  }

  /** Splitting a join of separator-free pieces gives the pieces back. */
  lemma {:induction false} SplitJoin(parts: seq<string>, sep: char)
    requires |parts| >= 1
    requires forall k | 0 <= k < |parts| :: sep !in parts[k]
    ensures Split(JoinWith(parts, sep), sep) == parts
    decreases |parts|
  {
    if |parts| == 1 {
      SplitWithoutSep(parts[0], sep);
    } else {
      SplitJoin(parts[1..], sep);
      SplitAfterHead(parts[0], JoinWith(parts[1..], sep), sep);
      assert [parts[0]] + parts[1..] == parts;
    }
  }

  /** Appending a piece on the right adds one separator and that piece. */
  lemma {:induction false} JoinWithSnoc(parts: seq<string>, last: string, sep: char)
    requires |parts| >= 1
    ensures JoinWith(parts + [last], sep) == JoinWith(parts, sep) + [sep] + last
    decreases |parts|
  {
    if |parts| > 1 {
      assert (parts + [last])[1..] == parts[1..] + [last];
      JoinWithSnoc(parts[1..], last, sep);
    } else {
      assert (parts + [last])[1..] == [last];
    }
  }

  /** The `join_str_iter` rendering is the space-join of the tokens plus one
      trailing space (and empty when there are no tokens). */
  lemma {:induction false} JoinStrIterIsSpaceJoin(tokens: seq<string>)
    ensures |tokens| == 0 ==> JoinStrIter(tokens) == ""
    ensures |tokens| > 0 ==> JoinStrIter(tokens) == JoinWith(tokens, ' ') + " "
    decreases |tokens|
  {
    if |tokens| > 1 {
      var init := tokens[..|tokens| - 1];
      JoinStrIterIsSpaceJoin(init);
      JoinWithSnoc(init, tokens[|tokens| - 1], ' ');
      assert init + [tokens[|tokens| - 1]] == tokens;
    } else if |tokens| == 1 {
      assert tokens[..0] == [];
    }
  }

  /** Re-tokenising a `join_str_iter` rendering of space-free tokens gives the
      tokens back, followed by the empty piece after the trailing space. */
  lemma {:induction false} SplitJoinStrIter(tokens: seq<string>)
    requires forall k | 0 <= k < |tokens| :: ' ' !in tokens[k]
    ensures Split(JoinStrIter(tokens), ' ') == tokens + [""]
  {
    JoinStrIterIsSpaceJoin(tokens);
    if |tokens| > 0 {
      JoinWithSnoc(tokens, "", ' ');
      assert JoinWith(tokens, ' ') + " " == JoinWith(tokens, ' ') + [' '] + "";
      SplitJoin(tokens + [""], ' ');
    }
  }

  /** A join starts with its first piece. */
  lemma JoinWithStartsWithHead(parts: seq<string>, sep: char)
    requires |parts| >= 1
    ensures parts[0] <= JoinWith(parts, sep)
  {
  }

  /** A character other than the separator is in a join only if some piece holds it. */
  lemma {:induction false} JoinWithAvoids(parts: seq<string>, sep: char, c: char)
    requires c != sep
    requires forall k | 0 <= k < |parts| :: c !in parts[k]
    ensures c !in JoinWith(parts, sep)
    decreases |parts|
  {
    if |parts| > 1 {
      JoinWithAvoids(parts[1..], sep, c);
    }
  }
}
