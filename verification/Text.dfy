/** The few string operations the cache policy uses, on ASCII text. */
module Text {
  import opened Sums

  const INT64_MAX := 0x7fff_ffff_ffff_ffff
  const TWO_64 := 0x1_0000_0000_0000_0000

  /** A 64-bit signed product or sum wraps around. */
  function Wrap64(n: int): int {
    var r := n % TWO_64;
    if r > INT64_MAX then r - TWO_64 else r
  }

  function LowerChar(c: char): char {
    if 'A' <= c <= 'Z' then (c as int + 32) as char else c
  }

  function ToLower(s: string): (r: string)
    ensures |r| == |s|
  {
    if s == "" then "" else [LowerChar(s[0])] + ToLower(s[1..])
  }

  predicate IsSpace(c: char) {
    c == ' ' || c == '\t' || c == '\n' || c == '\r' || c == 11 as char || c == 12 as char
  }

  function TrimLeft(s: string): string {
    if s != "" && IsSpace(s[0]) then TrimLeft(s[1..]) else s
  }

  function TrimRight(s: string): string {
    if s != "" && IsSpace(s[|s| - 1]) then TrimRight(s[..|s| - 1]) else s
  }

  function Trim(s: string): string {
    TrimRight(TrimLeft(s))
  }

  /** strings.Split with a one-character separator: always at least one piece. */
  function Split(s: string, sep: char): (r: seq<string>)
    ensures |r| >= 1
  {
    if s == "" then [""]
    else
      var rest := Split(s[1..], sep);
      if s[0] == sep then [""] + rest else [[s[0]] + rest[0]] + rest[1..]
  }

  predicate HasPrefix(s: string, p: string) {
    |p| <= |s| && s[..|p|] == p
  }

  predicate Contains(s: string, p: string) {
    HasPrefix(s, p) || (s != "" && Contains(s[1..], p))
  }

  predicate IsDigit(c: char) {
    '0' <= c <= '9'
  }

  function Digits(s: string): int {
    if s == "" then 0 else Digits(s[..|s| - 1]) * 10 + (s[|s| - 1] as int - '0' as int)
  }

  predicate AllDigits(s: string) {
    s == "" || (IsDigit(s[|s| - 1]) && AllDigits(s[..|s| - 1]))
  }

  predicate Signed(s: string) {
    s != "" && (s[0] == '+' || s[0] == '-')
  }

  /** strconv.Atoi: optional sign, decimal digits, inside the 64-bit range. */
  function Atoi(s: string): Option<int> {
    var digits := if Signed(s) then s[1..] else s;
    if digits == "" || !AllDigits(digits) then None
    else
      var n := if s[0] == '-' then -Digits(digits) else Digits(digits);
      if -INT64_MAX - 1 <= n <= INT64_MAX then Some(n) else None
  }

  /** path.Ext: from the last dot of the last path element, or "". */
  function Ext(path: string): string {
    if path == "" || path[|path| - 1] == '/' then ""
    else if path[|path| - 1] == '.' then "."
    else
      var e := Ext(path[..|path| - 1]);
      if e == "" then "" else e + [path[|path| - 1]]
  }

  lemma {:induction false} SplitNone(s: string, sep: char)
    requires forall i :: 0 <= i < |s| ==> s[i] != sep
    ensures Split(s, sep) == [s]
  {
    if s != "" {
      SplitNone(s[1..], sep);
      assert s == [s[0]] + s[1..];
    }
  }

  lemma {:induction false} LowerFixed(s: string)
    requires forall i :: 0 <= i < |s| ==> LowerChar(s[i]) == s[i]
    ensures ToLower(s) == s
  {
    if s != "" {
      LowerFixed(s[1..]);
      assert s == [s[0]] + s[1..];
    }
  }

  lemma {:induction false} FirstDigit(s: string)
    requires AllDigits(s) && s != ""
    ensures IsDigit(s[0])
  {
    if |s| > 1 {
      FirstDigit(s[..|s| - 1]);
    }
  }

  lemma AtoiOfDigits(s: string)
    requires s != "" && AllDigits(s) && Digits(s) <= INT64_MAX && 0 <= Digits(s)
    ensures Atoi(s) == Some(Digits(s))
  {
    FirstDigit(s);
  }

  // ----- what these operations mean -----

  /** A 64-bit result is the one number in range that is congruent to the exact one. */
  lemma WrapIsCongruent(n: int)
    ensures -0x8000_0000_0000_0000 <= Wrap64(n) < 0x8000_0000_0000_0000
    ensures exists k :: Wrap64(n) == n + k * 0x1_0000_0000_0000_0000
  {
    var q := n / TWO_64;
    assert n == q * TWO_64 + n % TWO_64;
    assert Wrap64(n) == n + (-q) * TWO_64 || Wrap64(n) == n + (-q - 1) * TWO_64;
  }

  const UPPER := "ABCDEFGHIJKLMNOPQRSTUVWXYZ"
  const LOWER := "abcdefghijklmnopqrstuvwxyz"

  /** Capital letters become the small letters at the same place of the alphabet, small letters stay. */
  lemma LowerLetters()
    ensures ToLower(UPPER) == LOWER && ToLower(LOWER) == LOWER
  {
    hide ToLower;
    Alphabet();
    forall k | 0 <= k < 26 ensures ToLower(UPPER)[k] == LOWER[k] == ToLower(LOWER)[k] {
      ToLowerAt(UPPER, k);
      ToLowerAt(LOWER, k);
    }
  }

  /** Characters below and above the capital letters stay. */
  lemma LowerOthers(s: string, i: nat)
    requires i < |s| && (s[i] < 'A' || 'Z' < s[i])
    ensures ToLower(s)[i] == s[i]
  {
    ToLowerAt(s, i);
  }

  lemma Alphabet()
    ensures |UPPER| == |LOWER| == 26
    ensures forall k :: 0 <= k < 26 ==> UPPER[k] == ('A' as int + k) as char && LOWER[k] == ('a' as int + k) as char
  {
    forall k | 0 <= k < 26
      ensures UPPER[k] == ('A' as int + k) as char && LOWER[k] == ('a' as int + k) as char
    {
      if k < 13 { FirstHalf(k); } else { SecondHalf(k); }
    }
  }

  lemma FirstHalf(k: nat)
    requires k < 13
    ensures UPPER[k] == ('A' as int + k) as char && LOWER[k] == ('a' as int + k) as char
  {
    assert k in {0, 1, 2, 3, 4, 5, 6, 7, 8, 9, 10, 11, 12};
  }

  lemma SecondHalf(k: nat)
    requires 13 <= k < 26
    ensures UPPER[k] == ('A' as int + k) as char && LOWER[k] == ('a' as int + k) as char
  {
    assert k in {13, 14, 15, 16, 17, 18, 19, 20, 21, 22, 23, 24, 25};
  }

  lemma {:induction false} ToLowerAt(s: string, i: nat)
    requires i < |s|
    ensures ToLower(s)[i] == LowerChar(s[i])
  {
    if i > 0 {
      ToLowerAt(s[1..], i - 1);
    }
  }

  const BLANKS := {' ', '\t', '\n', '\r', 11 as char, 12 as char}

  /** What is left when blanks are taken off both ends. */
  ghost predicate TrimmedTo(s: string, t: string) {
    exists i, j :: 0 <= i <= j <= |s| && t == s[i..j]
                   && (forall k :: 0 <= k < i || j <= k < |s| ==> s[k] in BLANKS)
                   && (i < j ==> s[i] !in BLANKS && s[j - 1] !in BLANKS)
  }

  lemma TrimMeans(s: string)
    ensures TrimmedTo(s, Trim(s))
  {
    var i := LeftBlanks(s);
    var t := TrimLeft(s);
    var n := RightBlanks(t);
    assert Trim(s) == s[i..i + n];
    assert forall k :: i + n <= k < |s| ==> s[k] == t[k - i];
    assert n > 0 ==> s[i] == t[0] && s[i + n - 1] == t[n - 1];
  }

  lemma {:induction false} LeftBlanks(s: string) returns (i: nat)
    ensures i <= |s| && TrimLeft(s) == s[i..] && (forall k :: 0 <= k < i ==> s[k] in BLANKS)
    ensures i < |s| ==> s[i] !in BLANKS
  {
    i := 0;
    if s != "" && IsSpace(s[0]) {
      i := LeftBlanks(s[1..]);
      i := i + 1;
    }
  }

  lemma {:induction false} RightBlanks(s: string) returns (n: nat)
    ensures n <= |s| && TrimRight(s) == s[..n] && (forall k :: n <= k < |s| ==> s[k] in BLANKS)
    ensures 0 < n ==> s[n - 1] !in BLANKS
  {
    n := |s|;
    if s != "" && IsSpace(s[|s| - 1]) {
      n := RightBlanks(s[..|s| - 1]);
    }
  }

  function Join(parts: seq<string>, sep: char): string
    requires parts != []
  {
    if |parts| == 1 then parts[0] else parts[0] + [sep] + Join(parts[1..], sep)
  }

  /** Splitting loses nothing and leaves no separator inside a piece. */
  lemma {:induction false} SplitMeans(s: string, sep: char)
    ensures Join(Split(s, sep), sep) == s
    ensures forall i :: 0 <= i < |Split(s, sep)| ==> sep !in Split(s, sep)[i]
  {
    if s != "" {
      var rest := Split(s[1..], sep);
      SplitMeans(s[1..], sep);
      assert s == [s[0]] + s[1..];
      if s[0] == sep {
        assert ([""] + rest)[1..] == rest;
      } else if |rest| > 1 {
        var all := [[s[0]] + rest[0]] + rest[1..];
        assert all[1..] == rest[1..];
        assert Join(all, sep) == [s[0]] + (rest[0] + [sep] + Join(rest[1..], sep));
      }
    }
  }

  /** p stands somewhere in s. */
  ghost predicate Occurs(p: string, s: string) {
    exists before: string, after: string :: s == before + p + after
  }

  lemma {:induction false} ContainsMeans(s: string, p: string)
    ensures Contains(s, p) <==> Occurs(p, s)
  {
    if HasPrefix(s, p) {
      assert s == "" + p + s[|p|..];
    } else if s != "" {
      ContainsMeans(s[1..], p);
      if before: string, after: string :| s[1..] == before + p + after {
        assert s == [s[0]] + s[1..];
        assert s == ([s[0]] + before) + p + after;
      }
      if before: string, after: string :| s == before + p + after {
        OccursLater(s, p, before, after);
      }
    } else if before: string, after: string :| s == before + p + after {
      OccursLater(s, p, before, after);
    }
  }

  lemma AtTheStart(s: string, p: string, before: string, after: string)
    requires s == before + p + after
    ensures before == "" ==> HasPrefix(s, p)
  {
  }

  lemma OccursLater(s: string, p: string, before: string, after: string)
    requires s == before + p + after && !HasPrefix(s, p)
    ensures s != "" && Occurs(p, s[1..])
  {
    AtTheStart(s, p, before, after);
    assert s[1..] == before[1..] + p + after;
  }

  /** The usual decimal text of a number. */
  function Decimal(n: nat): (s: string)
    ensures s != "" && AllDigits(s)
    decreases n
  {
    if n < 10 then [DIGITS[n]] else Decimal(n / 10) + [DIGITS[n % 10]]
  }

  const DIGITS := "0123456789"

  lemma {:induction false} DigitsOfDecimal(n: nat)
    ensures Digits(Decimal(n)) == n
    decreases n
  {
    if n >= 10 {
      DigitsOfDecimal(n / 10);
      var s := Decimal(n);
      assert s[..|s| - 1] == Decimal(n / 10);
    } else {
      assert [DIGITS[n]][..0] == "";
    }
  }

  lemma AtoiUnfold(s: string)
    requires s != "" && AllDigits(s) && 0 <= Digits(s)
    ensures Atoi(s) == (if Digits(s) <= INT64_MAX then Some(Digits(s)) else None)
    ensures Atoi("+" + s) == Atoi(s)
    ensures Atoi("-" + s) == if Digits(s) <= INT64_MAX + 1 then Some(-Digits(s)) else None
  {
    FirstDigit(s);
    assert ("+" + s)[1..] == s && ("-" + s)[1..] == s;
  }

  /** Atoi reads back every decimal text, signed or not, inside the 64-bit range, and refuses the others. */
  lemma AtoiReadsDecimals(n: int)
    requires 0 <= n
    ensures Atoi(Decimal(n)) == Atoi("+" + Decimal(n)) == if n < 0x8000_0000_0000_0000 then Some(n) else None
    ensures Atoi("-" + Decimal(n)) == if n <= 0x8000_0000_0000_0000 then Some(-n) else None
  {
    DigitsOfDecimal(n);
    AtoiUnfold(Decimal(n));
  }

  /** No number: no text, a sign alone, or anything but decimal digits after the first character. */
  lemma AtoiRefuses(s: string)
    requires s in {"", "+", "-"} || (exists i :: 1 <= i < |s| && s[i] !in DIGITS) ||
             (s != "" && s[0] !in DIGITS && s[0] != '+' && s[0] != '-')
    ensures Atoi(s) == None
  {
    TenDigits();
    if i :| 1 <= i < |s| && s[i] !in DIGITS {
      if Signed(s) {
        NotAllDigits(s[1..], i - 1);
      } else {
        NotAllDigits(s, i);
      }
    } else if s !in {"", "+", "-"} {
      NotAllDigits(s, 0);
    } else {
      assert s == "" || s[1..] == "";
    }
  }

  lemma {:induction false} NotAllDigits(s: string, i: nat)
    requires i < |s| && !IsDigit(s[i])
    ensures !AllDigits(s)
  {
    if i < |s| - 1 {
      NotAllDigits(s[..|s| - 1], i);
    }
  }

  lemma TenDigits()
    ensures forall c :: IsDigit(c) <==> c in DIGITS
  {
    forall c | IsDigit(c) ensures c in DIGITS {
      assert DIGITS[c as int - '0' as int] == c;
    }
  }

  /** Leading zeros do not matter. */
  lemma {:induction false} LeadingZero(s: string)
    requires AllDigits(s)
    ensures AllDigits("0" + s) && Digits("0" + s) == Digits(s)
  {
    var t := "0" + s;
    if s == "" {
      assert t[..|t| - 1] == "";
    } else {
      LeadingZero(s[..|s| - 1]);
      assert t[..|t| - 1] == "0" + s[..|s| - 1] && t[|t| - 1] == s[|s| - 1];
    }
  }

  /** The last dot of the path has a slash after it, if there is a dot at all. */
  ghost predicate NoDotAtEnd(path: string) {
    forall i :: 0 <= i < |path| && path[i] == '.' ==> '/' in path[i..]
  }

  /** e is the end of the path from its last dot, with no slash in it. */
  ghost predicate FromLastDot(path: string, e: string) {
    && 0 < |e| <= |path| && path[|path| - |e|..] == e
    && e[0] == '.' && '.' !in e[1..] && '/' !in e[1..]
  }

  lemma SlashAtEnd(path: string)
    requires path != "" && path[|path| - 1] == '/'
    ensures NoDotAtEnd(path)
  {
    forall i | 0 <= i < |path| && path[i] == '.' ensures '/' in path[i..] {
      assert path[i..][|path| - 1 - i] == '/';
    }
  }

  lemma PlainAtEnd(path: string, n: nat, e: string)
    requires |path| == n + 1 && path[n] != '/' && path[n] != '.'
    ensures NoDotAtEnd(path[..n]) ==> NoDotAtEnd(path)
    ensures FromLastDot(path[..n], e) ==> FromLastDot(path, e + [path[n]])
  {
    if NoDotAtEnd(path[..n]) {
      forall i | 0 <= i < |path| && path[i] == '.' ensures '/' in path[i..] {
        assert path[..n][i] == '.' && path[..n][i..] <= path[i..];
      }
    }
    if FromLastDot(path[..n], e) {
      assert path[|path| - |e| - 1..] == path[..n][n - |e|..] + [path[n]];
      assert (e + [path[n]])[1..] == e[1..] + [path[n]];
    }
  }

  /** The extension is the end of the path from its last dot, unless a slash follows that dot or there is none. */
  lemma {:induction false} ExtMeans(path: string)
    ensures if Ext(path) == "" then NoDotAtEnd(path) else FromLastDot(path, Ext(path))
  {
    if path != "" {
      var n := |path| - 1;
      if path[n] == '/' {
        SlashAtEnd(path);
      } else if path[n] != '.' {
        ExtMeans(path[..n]);
        hide NoDotAtEnd, FromLastDot;
        PlainAtEnd(path, n, Ext(path[..n]));
      }
    }
  }
}
