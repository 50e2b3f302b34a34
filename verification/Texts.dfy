/** Splitting and joining strings at a separator, as `strings.Split` and `strings.Join` do. */
module Texts {
  /** `strings.Split` at a single character: never empty. */
  function SplitOn(sep: char, s: string): (parts: seq<string>)
    ensures parts != []
  {
    if s == "" then [""]
    else if s[0] == sep then [""] + SplitOn(sep, s[1..])
    else var rest := SplitOn(sep, s[1..]); [[s[0]] + rest[0]] + rest[1..]
  }

  function JoinWith(sep: char, parts: seq<string>): string {
    if parts == [] then ""
    else if |parts| == 1 then parts[0]
    else parts[0] + [sep] + JoinWith(sep, parts[1..])
  }

  predicate Free(sep: char, part: string) { sep !in part }

  predicate AllFree(sep: char, parts: seq<string>) { forall i | 0 <= i < |parts| :: Free(sep, parts[i]) }

  lemma {:induction false} JoinSplit(sep: char, s: string)
    ensures JoinWith(sep, SplitOn(sep, s)) == s
  {
    if s != "" {
      JoinSplit(sep, s[1..]);
      var rest := SplitOn(sep, s[1..]);
      if s[0] == sep {
        assert ([""] + rest)[1..] == rest;
      } else if |rest| > 1 {
        assert ([[s[0]] + rest[0]] + rest[1..])[1..] == rest[1..];
        assert [s[0]] + rest[0] + [sep] + JoinWith(sep, rest[1..])
            == [s[0]] + (rest[0] + [sep] + JoinWith(sep, rest[1..]));
      }
    }
  }

  lemma {:induction false} SplitAtSep(sep: char, part: string, rest: string)
    requires Free(sep, part)
    ensures SplitOn(sep, part) == [part]
    ensures SplitOn(sep, part + [sep] + rest) == [part] + SplitOn(sep, rest)
  {
    var whole := part + [sep] + rest;
    if part == "" {
      assert whole[1..] == rest;
    } else {
      assert whole[1..] == part[1..] + [sep] + rest;
      SplitAtSep(sep, part[1..], rest);
      assert [part[0]] + part[1..] == part;
    }
  }

  lemma {:induction false} SplitJoin(sep: char, parts: seq<string>)
    requires parts != [] && AllFree(sep, parts)
    ensures SplitOn(sep, JoinWith(sep, parts)) == parts
  {
    SplitAtSep(sep, parts[0], if |parts| > 1 then JoinWith(sep, parts[1..]) else "");
    if |parts| > 1 {
      SplitJoin(sep, parts[1..]);
    }
  }
}
