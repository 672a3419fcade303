/** Small text operations of Python's `str`: splitting at a separator and writing numbers down. */
module Texts {

  /** `s.split(sep)` for a one-character separator. */
  function SplitOn(s: string, sep: char): (parts: seq<string>)
    ensures parts != []
  {
    if s == "" then [""]
    else if s[0] == sep then [""] + SplitOn(s[1..], sep)
    else var rest := SplitOn(s[1..], sep); [[s[0]] + rest[0]] + rest[1..]
  }

  lemma {:induction false} SplitWhole(part: string, sep: char)
    requires sep !in part
    ensures SplitOn(part, sep) == [part]
  {
    if part == "" {
    } else {
      SplitWhole(part[1..], sep);
      assert part == [part[0]] + part[1..];
    }
  }

  lemma {:induction false} SplitFirst(part: string, rest: string, sep: char)
    requires sep !in part
    ensures SplitOn(part + [sep] + rest, sep) == [part] + SplitOn(rest, sep)
  {
    var whole := part + [sep] + rest;
    if part == "" {
      assert whole[1..] == rest;
    } else {
      assert whole[1..] == part[1..] + [sep] + rest;
      SplitFirst(part[1..], rest, sep);
      assert part == [part[0]] + part[1..];
    }
  }

  function Digit(d: nat): char
    requires d < 10
  {
    ('0' as int + d) as char
  }

  function Decimal(n: nat): string {
    if n < 10 then [Digit(n)] else Decimal(n / 10) + [Digit(n % 10)]
  }
}
