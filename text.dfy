/**
 * The textual pieces both servers build their replies and log lines from:
 * the decimal form of a counter (`std::to_string`, a Python f-string) with
 * its inverse, and text made of newline-terminated lines with its inverse.
 */
module Text {
  import opened Common

  predicate IsDigit(c: char) {
    '0' <= c <= '9'
  }

  predicate AllDigits(s: string) {
    forall i :: 0 <= i < |s| ==> IsDigit(s[i])
  }

  function DigitChar(d: nat): (c: char)
    requires d < 10
    ensures IsDigit(c) && c as int - '0' as int == d
  {
    ('0' as int + d) as char
  }

  /** The decimal digits of `n`, most significant first, without leading zeros. */
  function NatToString(n: nat): (s: string)
    ensures |s| > 0 && AllDigits(s)
    ensures s[0] == '0' <==> n == 0
    decreases n
  {
    if n < 10 then [DigitChar(n)] else NatToString(n / 10) + [DigitChar(n % 10)]
  }

  /** The number a string of decimal digits denotes. */
  function DigitsValue(s: string): nat
    requires AllDigits(s)
  {
    if s == [] then 0 else DigitsValue(s[..|s| - 1]) * 10 + (s[|s| - 1] as int - '0' as int)
  }

  /** Reads a counter back from its decimal text: `None` unless the text is a non-empty run of digits. */
  function ParseNat(s: string): Option<nat> {
    if |s| > 0 && AllDigits(s) then Some(DigitsValue(s)) else None
  }

  /** Reading back the decimal text of a counter gives the counter. */
  lemma {:induction false} ParseNatToString(n: nat)
    ensures ParseNat(NatToString(n)) == Some(n)
  {
    var s := NatToString(n);
    if n < 10 {
      assert s[..|s| - 1] == [];
    } else {
      ParseNatToString(n / 10);
      assert s[..|s| - 1] == NatToString(n / 10);
      assert DigitsValue(s) == (n / 10) * 10 + n % 10;
    }
  }

  /** Two counters print alike only when they are equal. */
  lemma NatToStringInjective(a: nat, b: nat)
    requires NatToString(a) == NatToString(b)
    ensures a == b
  {
    ParseNatToString(a);
    ParseNatToString(b);
  }

  /** The length of the run of digits that `s` starts with. */
  function LeadingDigits(s: string): (k: nat)
    ensures k <= |s| && AllDigits(s[..k])
    ensures k < |s| ==> !IsDigit(s[k])
  {
    if s == [] || !IsDigit(s[0]) then 0 else 1 + LeadingDigits(s[1..])
  }

  /** A run of digits followed by a non-digit is split back at exactly the run's end. */
  lemma {:induction false} DigitsThenText(d: string, rest: string)
    requires AllDigits(d)
    requires rest == [] || !IsDigit(rest[0])
    ensures LeadingDigits(d + rest) == |d|
  {
    if d == [] {
      assert d + rest == rest;
    } else {
      DigitsThenText(d[1..], rest);
      assert (d + rest)[1..] == d[1..] + rest;
    }
  }

  /** A text written line by line: every line followed by a newline. */
  function Unlines(ls: seq<string>): string {
    if ls == [] then "" else ls[0] + "\n" + Unlines(ls[1..])
  }

  /** The position of the first newline in `s`, or `|s|` when there is none. */
  function FindNewline(s: string): (k: nat)
    ensures k <= |s| && '\n' !in s[..k]
    ensures k < |s| ==> s[k] == '\n'
  {
    if s == [] || s[0] == '\n' then 0 else 1 + FindNewline(s[1..])
  }

  /** The first newline after a line that holds none is the one that ends it. */
  lemma {:induction false} NewlineAfter(line: string, rest: string)
    requires '\n' !in line
    ensures FindNewline(line + "\n" + rest) == |line|
  {
    if line != [] {
      NewlineAfter(line[1..], rest);
      assert (line + "\n" + rest)[1..] == line[1..] + "\n" + rest;
    }
  }

  /** The lines of a text; a last line without a newline still counts as a line. */
  function SplitLines(s: string): seq<string>
    decreases |s|
  {
    if s == [] then []
    else
      var k := FindNewline(s);
      if k == |s| then [s] else [s[..k]] + SplitLines(s[k + 1..])
  }

  /** Writing lines that hold no newline and reading the text back gives the same lines. */
  lemma {:induction false} SplitUnlines(ls: seq<string>)
    requires forall i :: 0 <= i < |ls| ==> '\n' !in ls[i]
    ensures SplitLines(Unlines(ls)) == ls
  {
    if ls != [] {
      var head, rest := ls[0], Unlines(ls[1..]);
      var s := Unlines(ls);
      assert s == head + "\n" + rest;
      NewlineAfter(head, rest);
      var k := FindNewline(s);
      assert k == |head|;
      assert s[..k] == head;
      assert s[k + 1..] == rest;
      SplitUnlines(ls[1..]);
      assert ls == [head] + ls[1..];
    }
  }

  /** Text written line by line in two goes is the text of all the lines. */
  lemma {:induction false} UnlinesAppend(ls: seq<string>, ms: seq<string>)
    ensures Unlines(ls + ms) == Unlines(ls) + Unlines(ms)
  {
    if ls == [] {
      assert ls + ms == ms;
    } else {
      UnlinesAppend(ls[1..], ms);
      assert (ls + ms)[1..] == ls[1..] + ms;
    }
  }

  /** A character other than the newline that no line holds does not occur in the text written from those lines. */
  lemma {:induction false} UnlinesAvoids(ls: seq<string>, c: char)
    requires c != '\n' && forall i :: 0 <= i < |ls| ==> c !in ls[i]
    ensures c !in Unlines(ls)
  {
    if ls != [] {
      UnlinesAvoids(ls[1..], c);
    }
  }

  /**
   * A text file as Python's text mode reads it back (universal newlines):
   * each `\r\n` pair and each lone `\r` becomes one `\n`.
   */
  function UniversalNewlines(s: string): (t: string)
    ensures '\r' !in t
    ensures t == [] <==> s == []
    ensures |t| <= |s|
    decreases |s|
  {
    if s == [] then []
    else if s[0] == '\r' then
      "\n" + UniversalNewlines(if |s| > 1 && s[1] == '\n' then s[2..] else s[1..])
    else [s[0]] + UniversalNewlines(s[1..])
  }

  /** A text without carriage returns reads back exactly as written. */
  lemma {:induction false} UniversalNewlinesKeeps(s: string)
    requires '\r' !in s
    ensures UniversalNewlines(s) == s
  {
    if s != [] {
      UniversalNewlinesKeeps(s[1..]);
      assert s == [s[0]] + s[1..];
    }
  }

  /** A prefix without carriage returns reads back unchanged in front of whatever follows it. */
  lemma {:induction false} UniversalNewlinesAfter(prefix: string, s: string)
    requires '\r' !in prefix
    ensures UniversalNewlines(prefix + s) == prefix + UniversalNewlines(s)
  {
    if prefix == [] {
      assert prefix + s == s;
    } else {
      assert prefix[0] in prefix;
      assert (prefix + s)[0] == prefix[0] != '\r';
      assert (prefix + s)[1..] == prefix[1..] + s;
      assert UniversalNewlines(prefix + s) == [prefix[0]] + UniversalNewlines(prefix[1..] + s);
      UniversalNewlinesAfter(prefix[1..], s);
      assert [prefix[0]] + (prefix[1..] + UniversalNewlines(s)) == prefix + UniversalNewlines(s);
    }
  }
}
