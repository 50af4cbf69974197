/** The string operations the puzzle parsers use: `str::parse` for integers,
    `split_once`, `split`, `starts_with`, and decimal rendering as their partner. */
module Text {
  import opened Util

  predicate IsDigit(c: char) { '0' <= c <= '9' }

  predicate AllDigits(s: string) { forall i | 0 <= i < |s| :: IsDigit(s[i]) }

  /** The value of a run of decimal digits, most significant first. */
  function DigitsValue(s: string): nat
    requires AllDigits(s)
  {
    if s == [] then 0 else DigitsValue(s[..|s| - 1]) * 10 + ((s[|s| - 1] as int) - ('0' as int))
  }

  /** `str::parse::<u32>()` (and `u64`, `usize`): an optional `+`, then one or more
      decimal digits; anything else is an error. */
  function ParseNat(s: string): Option<nat>
  {
    var d := if s != [] && s[0] == '+' then s[1..] else s;
    if d != [] && AllDigits(d) then Some(DigitsValue(d)) else None
  }

  /** `str::parse::<i32>()`: an optional sign, then one or more decimal digits. */
  function ParseInt(s: string): Option<int>
  {
    if s != [] && s[0] == '-' then
      (var d := s[1..]; if d != [] && AllDigits(d) then Some(-(DigitsValue(d) as int)) else None)
    else
      match ParseNat(s)
      case Some(n) => Some(n)
      case None => None
  }

  /** Decimal rendering without leading zeros (Rust's `to_string` of an unsigned value). */
  function ShowNat(n: nat): string
  {
    if n < 10 then [('0' as int + n) as char] else ShowNat(n / 10) + [('0' as int + n % 10) as char]
  }

  function ShowInt(i: int): string
  {
    if i < 0 then "-" + ShowNat(-i) else ShowNat(i)
  }

  lemma {:induction false} ShowNatDigits(n: nat)
    ensures ShowNat(n) != [] && AllDigits(ShowNat(n))
    ensures DigitsValue(ShowNat(n)) == n
    decreases n
  {
    if n >= 10 {
      ShowNatDigits(n / 10);
      var s := ShowNat(n);
      assert s[..|s| - 1] == ShowNat(n / 10);
    }
  }

  /** Parsing undoes rendering. */
  lemma ParseShowNat(n: nat)
    ensures ParseNat(ShowNat(n)) == Some(n)
  {
    ShowNatDigits(n);
  }

  lemma ParseShowInt(i: int)
    ensures ParseInt(ShowInt(i)) == Some(i)
  {
    if i < 0 {
      var d := ShowNat(-i);
      ShowNatDigits(-i);
      assert ShowInt(i) == "-" + d;
      assert ("-" + d)[1..] == d;
    } else {
      var d := ShowNat(i);
      ShowNatDigits(i);
      assert IsDigit(d[0]);
      assert ParseNat(d) == Some(i);
    }
  }

  /** The empty string and a lone sign are not numbers. */
  lemma ParseRejectsEmpty()
    ensures ParseNat("") == None && ParseNat("+") == None
    ensures ParseInt("") == None && ParseInt("-") == None
  {
  }

  /** `sep` starts at position `p` of `s`. */
  predicate OccursAt(s: string, sep: string, p: nat)
  {
    p + |sep| <= |s| && s[p..p + |sep|] == sep
  }

  predicate StartsWith(s: string, prefix: string)
  {
    |prefix| <= |s| && s[..|prefix|] == prefix
  }

  /** The first position at or after `p` where `sep` starts, if any. */
  function Find(s: string, sep: string, p: nat): (r: Option<nat>)
    requires sep != [] && p <= |s|
    ensures r.Some? ==> p <= r.value && OccursAt(s, sep, r.value)
    decreases |s| - p
  {
    if p + |sep| > |s| then None
    else if s[p..p + |sep|] == sep then Some(p)
    else Find(s, sep, p + 1)
  }

  /** `Find` finds the first occurrence, and `None` means there is none. */
  lemma {:induction false} FindFirst(s: string, sep: string, p: nat)
    requires sep != [] && p <= |s|
    ensures Find(s, sep, p).Some? ==> forall q | p <= q < Find(s, sep, p).value :: !OccursAt(s, sep, q)
    ensures Find(s, sep, p).None? ==> forall q | p <= q <= |s| :: !OccursAt(s, sep, q)
    decreases |s| - p
  {
    if p + |sep| <= |s| && s[p..p + |sep|] != sep {
      FindFirst(s, sep, p + 1);
    }
  }

  /** `str::split_once(sep)`: the text before the first occurrence of `sep` and the text after it. */
  function SplitOnce(s: string, sep: string): (r: Option<(string, string)>)
    requires sep != []
    ensures r.Some? ==> s == r.value.0 + sep + r.value.1
  {
    match Find(s, sep, 0)
    case None => None
    case Some(p) =>
      assert s == s[..p] + s[p..p + |sep|] + s[p + |sep|..];
      Some((s[..p], s[p + |sep|..]))
  }

  /** The split is at the first occurrence, and there is none when `split_once` fails. */
  lemma SplitOnceFirst(s: string, sep: string)
    requires sep != []
    ensures SplitOnce(s, sep).Some? ==> forall p | 0 <= p < |SplitOnce(s, sep).value.0| :: !OccursAt(s, sep, p)
    ensures SplitOnce(s, sep).None? ==> forall p | 0 <= p <= |s| :: !OccursAt(s, sep, p)
  {
    FindFirst(s, sep, 0);
  }

  /** `str::split(sep)`: every piece between occurrences of `sep`; at least one piece. */
  function Split(s: string, sep: string): (parts: seq<string>)
    requires sep != []
    ensures |parts| >= 1
    decreases |s|
  {
    match SplitOnce(s, sep)
    case None => [s]
    case Some((a, b)) => [a] + Split(b, sep)
  }

  /** The inverse of `Split`: the pieces with `sep` between them. */
  function Join(parts: seq<string>, sep: string): string
    requires |parts| >= 1
  {
    if |parts| == 1 then parts[0] else parts[0] + sep + Join(parts[1..], sep)
  }

  predicate Lacks(s: string, c: char) { forall i | 0 <= i < |s| :: s[i] != c }

  /** A piece without the separator's first character is split off exactly. */
  lemma SplitOnceAt(a: string, sep: string, b: string)
    requires sep != [] && Lacks(a, sep[0])
    ensures SplitOnce(a + sep + b, sep) == Some((a, b))
  {
    var s := a + sep + b;
    assert OccursAt(s, sep, |a|) by { assert s[|a|..|a| + |sep|] == sep; }
    SplitOnceFirst(s, sep);
    var r := SplitOnce(s, sep);
    var a', b' := r.value.0, r.value.1;
    assert |a'| <= |a|;
    assert |a'| == |a|;
    assert a' == s[..|a|] == a;
    assert b' == s[|a| + |sep|..] == b;
  }

  /** A string without the separator's first character is not split at all. */
  lemma SplitOnceAbsent(a: string, sep: string)
    requires sep != [] && Lacks(a, sep[0])
    ensures SplitOnce(a, sep) == None
  {
  }

  /** Splitting undoes joining when no piece holds the separator's first character. */
  lemma {:induction false} SplitJoin(parts: seq<string>, sep: string)
    requires sep != [] && |parts| >= 1
    requires forall i | 0 <= i < |parts| :: Lacks(parts[i], sep[0])
    ensures Split(Join(parts, sep), sep) == parts
    decreases |parts|
  {
    if |parts| == 1 {
      SplitOnceAbsent(parts[0], sep);
    } else {
      LacksRest(parts, sep[0]);
      SplitJoin(parts[1..], sep);
      SplitStep(parts[0], sep, Join(parts[1..], sep));
      assert parts == [parts[0]] + parts[1..];
    }
  }

  lemma LacksRest(parts: seq<string>, c: char)
    requires |parts| >= 1 && forall i | 0 <= i < |parts| :: Lacks(parts[i], c)
    ensures forall i | 0 <= i < |parts| - 1 :: Lacks(parts[1..][i], c)
  {
    forall i | 0 <= i < |parts| - 1
      ensures Lacks(parts[1..][i], c)
    {
      assert parts[1..][i] == parts[i + 1];
    }
  }

  /** One piece split off the front. */
  lemma SplitStep(a: string, sep: string, tail: string)
    requires sep != [] && Lacks(a, sep[0])
    ensures Split(a + sep + tail, sep) == [a] + Split(tail, sep)
  {
    SplitOnceAt(a, sep, tail);
  }

  /** A character none of three strings holds is not in their concatenation. */
  lemma LacksJoined(a: string, sep: string, b: string, c: char)
    requires Lacks(a, c) && Lacks(sep, c) && Lacks(b, c)
    ensures Lacks(a + sep + b, c)
  {
    var s := a + sep + b;
    forall i | 0 <= i < |s|
      ensures s[i] != c
    {
      if i < |a| {
        assert s[i] == a[i];
      } else if i < |a| + |sep| {
        assert s[i] == sep[i - |a|];
      } else {
        assert s[i] == b[i - |a| - |sep|];
      }
    }
  }

  lemma ShowNatLacks(n: nat, c: char)
    requires !IsDigit(c)
    ensures Lacks(ShowNat(n), c)
  {
    ShowNatDigits(n);
  }

  /** The position of the first blank line, or the number of lines if there is none. */
  function FirstBlank(lines: seq<string>): (k: nat)
    ensures k <= |lines|
  {
    if lines == [] || lines[0] == "" then 0 else 1 + FirstBlank(lines[1..])
  }

  /** The lines before `FirstBlank` are not blank, and the line at it is. */
  lemma {:induction false} FirstBlankIsFirst(lines: seq<string>)
    ensures forall i | 0 <= i < FirstBlank(lines) :: lines[i] != ""
    ensures FirstBlank(lines) < |lines| ==> lines[FirstBlank(lines)] == ""
    decreases |lines|
  {
    if lines != [] && lines[0] != "" {
      FirstBlankIsFirst(lines[1..]);
    }
  }

  /** Every part parsed by `f`, or `None` as soon as one part fails (an `unwrap` per part, or a
      `collect` into `Option<Vec<_>>`). */
  function ParseEach<T>(f: string -> Option<T>, parts: seq<string>): (r: Option<seq<T>>)
    ensures r.Some? ==> |r.value| == |parts|
  {
    if parts == [] then Some([])
    else
      match (f(parts[0]), ParseEach(f, parts[1..]))
      case (Some(x), Some(rest)) => Some([x] + rest)
      case _ => None
  }

  /** Each value is its own part's parse. */
  lemma {:induction false} ParseEachSome<T>(f: string -> Option<T>, parts: seq<string>)
    requires ParseEach(f, parts).Some?
    ensures forall i | 0 <= i < |parts| :: f(parts[i]) == Some(ParseEach(f, parts).value[i])
    decreases |parts|
  {
    if parts != [] {
      var vs := ParseEach(f, parts).value;
      ParseEachSome(f, parts[1..]);
      forall i | 0 <= i < |parts| ensures f(parts[i]) == Some(vs[i]) {
        if i > 0 {
          assert parts[i] == parts[1..][i - 1];
          assert vs[i] == ParseEach(f, parts[1..]).value[i - 1];
        }
      }
    }
  }

  /** The whole parse fails exactly when some part fails. */
  lemma {:induction false} ParseEachNone<T>(f: string -> Option<T>, parts: seq<string>)
    ensures ParseEach(f, parts).None? <==> exists i | 0 <= i < |parts| :: f(parts[i]).None?
    decreases |parts|
  {
    if parts != [] {
      ParseEachNone(f, parts[1..]);
      if ParseEach(f, parts).None? {
        if f(parts[0]).Some? {
          var i :| 0 <= i < |parts[1..]| && f(parts[1..][i]).None?;
          assert f(parts[i + 1]).None?;
        }
      } else {
        ParseEachSome(f, parts);
      }
    }
  }
}
