/**
 * The JavaScript string operations the handlers use: `startsWith`, and
 * `split(sep)` followed by `pop()`, which yields the text after the last separator.
 */
module Text {

  /** `s.startsWith(prefix)`, compared character by character. */
  function StartsWith(s: string, prefix: string): (r: bool)
    ensures r <==> prefix <= s
  {
    if prefix == [] then true
    else if s == [] then false
    else
      assert prefix <= s <==> s[0] == prefix[0] && prefix[1..] <= s[1..];
      s[0] == prefix[0] && StartsWith(s[1..], prefix[1..])
  }

  /**
   * `s.split(sep)` for a one-character separator: the pieces between separators,
   * always at least one, and an empty piece for each leading, trailing or doubled separator.
   */
  function Split(s: string, sep: char): (parts: seq<string>)
    ensures |parts| >= 1
    ensures forall i :: 0 <= i < |parts| ==> sep !in parts[i]
  {
    if s == [] then [[]]
    else
      var rest := Split(s[1..], sep);
      if s[0] == sep then [[]] + rest
      else [[s[0]] + rest[0]] + rest[1..]
  }

  /** `parts.join(sep)`, the inverse of `Split`. */
  function Join(parts: seq<string>, sep: char): string
  {
    if parts == [] then []
    else if |parts| == 1 then parts[0]
    else parts[0] + [sep] + Join(parts[1..], sep)
  }

  /** Putting a character in front of the first piece puts it in front of the joined text. */
  lemma JoinConsHead(c: char, parts: seq<string>, sep: char)
    requires |parts| >= 1
    ensures Join([[c] + parts[0]] + parts[1..], sep) == [c] + Join(parts, sep)
  {
    var q := [[c] + parts[0]] + parts[1..];
    if |parts| > 1 {
      assert q[1..] == parts[1..];
    }
  }

  /** Splitting and joining again gives back the original text. */
  lemma {:induction false} JoinSplit(s: string, sep: char)
    ensures Join(Split(s, sep), sep) == s
  {
    if s != [] {
      var rest := Split(s[1..], sep);
      JoinSplit(s[1..], sep);
      if s[0] == sep {
        var parts := [[]] + rest;
        assert parts[1..] == rest;
        assert Join(parts, sep) == [] + [sep] + Join(rest, sep);
      } else {
        JoinConsHead(s[0], rest, sep);
      }
      assert s == [s[0]] + s[1..];
    }
  }

  /** `r` ends `s` and is either all of it or preceded by a separator. */
  predicate EndsAfterSep(s: string, sep: char, r: string)
  {
    |r| <= |s| && s[|s| - |r|..] == r && (|r| < |s| ==> s[|s| - |r| - 1] == sep)
  }

  /** `s.split(sep).pop()`: the text after the last separator, or all of `s` when there is none. */
  function AfterLast(s: string, sep: char): (r: string)
    ensures sep !in r
    ensures EndsAfterSep(s, sep, r)
  {
    var parts := Split(s, sep);
    LastPartIsSuffix(s, sep);
    parts[|parts| - 1]
  }

  /** The last piece of a split is a suffix of the text, preceded by a separator when shorter. */
  lemma {:induction false} LastPartIsSuffix(s: string, sep: char)
    ensures var parts := Split(s, sep);
            EndsAfterSep(s, sep, parts[|parts| - 1])
  {
    if s != [] {
      LastPartIsSuffix(s[1..], sep);
      if s[0] == sep {
        LastPartAfterSepHead(s, sep);
      } else {
        LastPartAfterOtherHead(s, sep);
      }
    }
  }

  /** A leading separator only adds an empty first piece. */
  lemma LastPartAfterSepHead(s: string, sep: char)
    requires s != [] && s[0] == sep
    requires var rest := Split(s[1..], sep);
             EndsAfterSep(s[1..], sep, rest[|rest| - 1])
    ensures var parts := Split(s, sep);
            EndsAfterSep(s, sep, parts[|parts| - 1])
  {
    var rest := Split(s[1..], sep);
    var parts := Split(s, sep);
    assert parts[|parts| - 1] == rest[|rest| - 1];
    EndsAfterSepOfTail(s, sep, rest[|rest| - 1]);
  }

  /** Any other leading character joins the first piece, so the last piece is unchanged unless it is the only one. */
  lemma LastPartAfterOtherHead(s: string, sep: char)
    requires s != [] && s[0] != sep
    requires var rest := Split(s[1..], sep);
             EndsAfterSep(s[1..], sep, rest[|rest| - 1])
    ensures var parts := Split(s, sep);
            EndsAfterSep(s, sep, parts[|parts| - 1])
  {
    var rest := Split(s[1..], sep);
    JoinSplit(s[1..], sep);
    if |rest| == 1 {
      WholeTextIsLastPart(s, sep);
    } else {
      JoinLongerThanLast(rest, sep);
      LastPartOfMany(s, sep);
    }
  }

  /** With two pieces or more in the tail, the last piece stays the tail's last piece. */
  lemma LastPartOfMany(s: string, sep: char)
    requires s != [] && s[0] != sep
    requires var rest := Split(s[1..], sep);
             |rest| >= 2 && |rest[|rest| - 1]| < |s| - 1 &&
             EndsAfterSep(s[1..], sep, rest[|rest| - 1])
    ensures var parts := Split(s, sep);
            EndsAfterSep(s, sep, parts[|parts| - 1])
  {
    var rest := Split(s[1..], sep);
    var parts := Split(s, sep);
    assert parts[|parts| - 1] == rest[|rest| - 1];
    EndsAfterSepOfTail(s, sep, rest[|rest| - 1]);
  }

  /** When the tail holds no separator and neither does the head, the split is the whole text. */
  lemma WholeTextIsLastPart(s: string, sep: char)
    requires s != [] && s[0] != sep && |Split(s[1..], sep)| == 1
    requires Join(Split(s[1..], sep), sep) == s[1..]
    ensures Split(s, sep) == [s]
  {
    assert Split(s[1..], sep) == [s[1..]];
    assert [s[0]] + s[1..] == s;
  }

  /** What ends `s[1..]` after a separator ends `s` after one, unless it is all of `s[1..]` and `s[0]` is no separator. */
  lemma EndsAfterSepOfTail(s: string, sep: char, r: string)
    requires |s| >= 1 && EndsAfterSep(s[1..], sep, r)
    requires |r| == |s| - 1 ==> s[0] == sep
    ensures EndsAfterSep(s, sep, r)
  {
    assert s[|s| - |r|..] == s[1..][|s| - 1 - |r|..];
  }

  /** With two pieces or more, the joined text is longer than its last piece. */
  lemma {:induction false} JoinLongerThanLast(parts: seq<string>, sep: char)
    requires |parts| >= 2
    ensures |Join(parts, sep)| > |parts[|parts| - 1]|
  {
    if |parts| > 2 {
      JoinLongerThanLast(parts[1..], sep);
    }
  }

  /**
   * The separator-free tail that follows the last separator is exactly what
   * `AfterLast` extracts: appending `sep + x` to any text is undone by it.
   */
  lemma AfterLastOfAppend(p: string, sep: char, x: string)
    requires sep !in x
    ensures AfterLast(p + [sep] + x, sep) == x
  {
    var s := p + [sep] + x;
    assert s[|s| - |x|..] == x;
    AfterLastUnique(s, sep, AfterLast(s, sep), x);
  }

  /** Two separator-free suffixes that each follow a separator (or are all of `s`) are the same. */
  lemma AfterLastUnique(s: string, sep: char, r1: string, r2: string)
    requires sep !in r1 && EndsAfterSep(s, sep, r1)
    requires sep !in r2 && EndsAfterSep(s, sep, r2)
    ensures r1 == r2
  {
    if |r1| < |r2| {
      assert false;
    } else if |r2| < |r1| {
      assert false;
    }
  }
}
