/**
 * String helpers with the JavaScript semantics the dashboard relies on:
 * truthiness of optional strings, `split`, `join`, `trim`, and the
 * decimal rendering of a number by `toString()`.
 */
module Text {
  import opened Wrappers

  /** JavaScript truthiness of an optional string: present and non-empty. */
  predicate Truthy(o: Option<string>) {
    o.Some? && o.value != ""
  }

  /** The expression `o || fallback` on an optional string. */
  function OrElse(o: Option<string>, fallback: string): string {
    if Truthy(o) then o.value else fallback
  }

  predicate StartsWith(s: string, prefix: string) {
    |prefix| <= |s| && s[..|prefix|] == prefix
  }

  predicate EndsWith(s: string, suffix: string) {
    |suffix| <= |s| && s[|s| - |suffix|..] == suffix
  }

  // ---------------------------------------------------------------------------
  // split / join
  // ---------------------------------------------------------------------------

  /**
   * `s.split(sep)` for a one-character separator: the pieces between
   * separators, in order; an empty string yields one empty piece.
   */
  function Split(s: string, sep: char): (parts: seq<string>)
    ensures |parts| >= 1
    ensures forall i :: 0 <= i < |parts| ==> sep !in parts[i]
    decreases |s|
  {
    if s == [] then [""]
    else
      var rest := Split(s[1..], sep);
      if s[0] == sep then [""] + rest
      else [[s[0]] + rest[0]] + rest[1..]
  }

  /** `parts.join(sep)`. */
  function Join(parts: seq<string>, sep: string): string
    decreases |parts|
  {
    if |parts| == 0 then ""
    else if |parts| == 1 then parts[0]
    else parts[0] + sep + Join(parts[1..], sep)
  }

  /** Joining the pieces of a split with the separator gives back the input. */
  lemma {:induction false} JoinSplit(s: string, sep: char)
    ensures Join(Split(s, sep), [sep]) == s
    decreases |s|
  {
    if s != [] {
      var rest := Split(s[1..], sep);
      JoinSplit(s[1..], sep);
      if s[0] == sep {
        assert ([""] + rest)[1..] == rest;
      } else {
        var parts := [[s[0]] + rest[0]] + rest[1..];
        if |rest| > 1 {
          assert parts[1..] == rest[1..];
        }
      }
    }
  }

  /** Splitting `p + t` where `p` holds no separator glues `p` to the first piece of `t`. */
  lemma {:induction false} SplitPrefix(p: string, t: string, sep: char)
    requires sep !in p
    ensures Split(p + t, sep) == [p + Split(t, sep)[0]] + Split(t, sep)[1..]
    decreases |p|
  {
    if p != [] {
      var T := Split(t, sep);
      assert (p + t)[0] == p[0] && (p + t)[1..] == p[1..] + t;
      SplitPrefix(p[1..], t, sep);
      var rest := Split(p[1..] + t, sep);
      assert rest == [p[1..] + T[0]] + T[1..];
      assert rest[0] == p[1..] + T[0] && rest[1..] == T[1..];
      assert Split(p + t, sep) == [[p[0]] + rest[0]] + rest[1..];
      assert [p[0]] + (p[1..] + T[0]) == p + T[0];
    } else {
      var T := Split(t, sep);
      assert p + t == t && p + T[0] == T[0];
      assert T == [T[0]] + T[1..];
    }
  }

  /** A piece without separators, a separator, then the rest: the piece comes off whole. */
  lemma SplitPieceThenSeparator(p: string, tail: string, sep: char)
    requires sep !in p
    ensures Split(p + [sep] + tail, sep) == [p] + Split(tail, sep)
  {
    var t := [sep] + tail;
    assert t[0] == sep && t[1..] == tail;
    var U := Split(t, sep);
    assert U == [""] + Split(tail, sep);
    SplitPrefix(p, t, sep);
    assert p + [sep] + tail == p + t;
    assert p + U[0] == p;
  }

  /** Splitting a join of separator-free pieces gives back the pieces. */
  lemma {:induction false} SplitJoin(parts: seq<string>, sep: char)
    requires |parts| >= 1
    requires forall i :: 0 <= i < |parts| ==> sep !in parts[i]
    ensures Split(Join(parts, [sep]), sep) == parts
    decreases |parts|
  {
    if |parts| == 1 {
      SplitPrefix(parts[0], "", sep);
      assert parts[0] + "" == parts[0];
    } else {
      var tail := Join(parts[1..], [sep]);
      SplitJoin(parts[1..], sep);
      assert Join(parts, [sep]) == parts[0] + [sep] + tail;
      SplitPieceThenSeparator(parts[0], tail, sep);
      assert [parts[0]] + parts[1..] == parts;
    }
  }

  /** The last piece of a join is a suffix of it. */
  lemma {:induction false} JoinEndsWithLast(parts: seq<string>, sep: string)
    requires |parts| >= 1
    ensures EndsWith(Join(parts, sep), parts[|parts| - 1])
    decreases |parts|
  {
    if |parts| > 1 {
      JoinEndsWithLast(parts[1..], sep);
      var tail := Join(parts[1..], sep);
      var whole := parts[0] + sep + tail;
      assert whole[|whole| - |tail|..] == tail;
    }
  }

  /** The last two pieces of a join, with the separator between them, are a suffix of it. */
  lemma {:induction false} JoinEndsWithLastTwo(parts: seq<string>, sep: string)
    requires |parts| >= 2
    ensures EndsWith(Join(parts, sep), parts[|parts| - 2] + sep + parts[|parts| - 1])
    decreases |parts|
  {
    if |parts| > 2 {
      JoinEndsWithLastTwo(parts[1..], sep);
      var tail := Join(parts[1..], sep);
      var whole := parts[0] + sep + tail;
      var suffix := parts[|parts| - 2] + sep + parts[|parts| - 1];
      assert whole[|whole| - |tail|..] == tail;
      assert whole[|whole| - |suffix|..] == tail[|tail| - |suffix|..];
    } else {
      assert parts[1..][0] == parts[1];
    }
  }

  /** Joins of two and of three pieces. */
  lemma JoinSmall(a: string, b: string, c: string, sep: string)
    ensures Join([a, c], sep) == a + sep + c
    ensures Join([a, b, c], sep) == a + sep + b + sep + c
  {
    assert [a, c][1..] == [c];
    assert [a, b, c][1..] == [b, c];
    assert [b, c][1..] == [c];
  }

  /** A join of two or more pieces starts with the first piece and the separator. */
  lemma JoinStartsWithFirst(parts: seq<string>, sep: string)
    requires |parts| >= 2
    ensures StartsWith(Join(parts, sep), parts[0] + sep)
  {
    var whole := parts[0] + sep + Join(parts[1..], sep);
    assert whole[..|parts[0] + sep|] == parts[0] + sep;
  }

  // ---------------------------------------------------------------------------
  // trim
  // ---------------------------------------------------------------------------

  /**
   * The characters `String.prototype.trim` removes: ECMAScript WhiteSpace
   * (tab, vertical tab, form feed, space, no-break space, byte-order mark and
   * the other space separators) and LineTerminator (LF, CR, LS, PS).
   */
  predicate IsSpace(c: char) {
    || c == '\t' || c == '\n' || c == '\U{000B}' || c == '\U{000C}' || c == '\r'
    || c == ' ' || c == '\U{00A0}' || c == '\U{1680}'
    || ('\U{2000}' <= c <= '\U{200A}')
    || c == '\U{2028}' || c == '\U{2029}' || c == '\U{202F}' || c == '\U{205F}'
    || c == '\U{3000}' || c == '\U{FEFF}'
  }

  /** Neither end of `s` is a space character. */
  predicate IsTrimmed(s: string) {
    s == [] || (!IsSpace(s[0]) && !IsSpace(s[|s| - 1]))
  }

  /** The number of leading characters of `s` that `drop` holds for. */
  function Leading(s: string, drop: char -> bool): (n: nat)
    ensures n <= |s|
    ensures forall k :: 0 <= k < n ==> drop(s[k])
    ensures n < |s| ==> !drop(s[n])
  {
    if s == [] || !drop(s[0]) then 0
    else
      var n := 1 + Leading(s[1..], drop);
      assert forall k :: 0 <= k < n ==> drop(s[k]) by {
        forall k | 1 <= k < n ensures drop(s[k]) {
          assert s[k] == s[1..][k - 1];
        }
      }
      assert n < |s| ==> s[n] == s[1..][n - 1];
      n
  }

  /** The number of trailing characters of `s` that `drop` holds for. */
  function Trailing(s: string, drop: char -> bool): (n: nat)
    ensures n <= |s|
    ensures forall k :: |s| - n <= k < |s| ==> drop(s[k])
    ensures n < |s| ==> !drop(s[|s| - n - 1])
  {
    if s == [] || !drop(s[|s| - 1]) then 0
    else
      var front := s[..|s| - 1];
      var n := 1 + Trailing(front, drop);
      assert forall k :: |s| - n <= k < |s| ==> drop(s[k]) by {
        forall k | |s| - n <= k < |s| - 1 ensures drop(s[k]) {
          assert s[k] == front[k];
        }
      }
      assert n < |s| ==> s[|s| - n - 1] == front[|front| - (n - 1) - 1];
      n
  }

  /**
   * The window left after dropping characters from both ends: every
   * character outside it is dropped, and a non-empty window starts and ends
   * with a kept character.
   */
  function Window(s: string, drop: char -> bool): (b: (nat, nat))
    ensures b.0 <= b.1 <= |s|
    ensures forall k :: 0 <= k < b.0 ==> drop(s[k])
    ensures forall k :: b.1 <= k < |s| ==> drop(s[k])
    ensures b.0 < b.1 ==> !drop(s[b.0]) && !drop(s[b.1 - 1])
  {
    var i := Leading(s, drop);
    var rest := s[i..];
    var t := Trailing(rest, drop);
    assert forall k :: |s| - t <= k < |s| ==> drop(s[k]) by {
      forall k | |s| - t <= k < |s| ensures drop(s[k]) {
        assert s[k] == rest[k - i];
      }
    }
    assert i < |s| - t ==> s[i] == rest[0] && s[|s| - t - 1] == rest[|rest| - t - 1];
    (i, |s| - t)
  }

  /**
   * `s.trim()`: the longest infix of `s` whose ends are not spaces, with
   * every removed character a space.
   */
  function Trim(s: string): (r: string)
    ensures IsTrimmed(r)
    ensures exists i, j :: (0 <= i <= j <= |s| && r == s[i..j]
                            && (forall k :: 0 <= k < i ==> IsSpace(s[k]))
                            && (forall k :: j <= k < |s| ==> IsSpace(s[k])))
    ensures IsTrimmed(s) ==> r == s
  {
    var b := Window(s, IsSpace);
    assert IsTrimmed(s) && s != [] ==> b == (0, |s|);
    s[b.0..b.1]
  }

  /** Every character of `Trim(s)` comes from `s`. */
  lemma TrimKeepsAbsentChars(s: string, c: char)
    ensures c !in s ==> c !in Trim(s)
  {
  }

  // ---------------------------------------------------------------------------
  // decimal numbers
  // ---------------------------------------------------------------------------

  predicate IsDigit(c: char) {
    '0' <= c <= '9'
  }

  predicate AllDigits(s: string) {
    forall i :: 0 <= i < |s| ==> IsDigit(s[i])
  }

  function Digit(d: nat): (c: char)
    requires d < 10
    ensures IsDigit(c)
  {
    ['0', '1', '2', '3', '4', '5', '6', '7', '8', '9'][d]
  }

  /** The number a string of decimal digits denotes. */
  function DecimalValue(s: string): nat
    requires AllDigits(s)
    decreases |s|
  {
    if s == [] then 0
    else DecimalValue(s[..|s| - 1]) * 10 + ((s[|s| - 1] as int) - ('0' as int))
  }

  /** `n.toString()` for a natural number: its digits, without leading zeros. */
  function NatToDecimal(n: nat): (s: string)
    ensures |s| >= 1 && AllDigits(s)
    ensures |s| > 1 ==> s[0] != '0'
    decreases n
  {
    if n < 10 then [Digit(n)] else NatToDecimal(n / 10) + [Digit(n % 10)]
  }

  /** Reading back the decimal rendering of `n` gives `n`. */
  lemma {:induction false} DecimalRoundTrip(n: nat)
    ensures DecimalValue(NatToDecimal(n)) == n
    decreases n
  {
    var s := NatToDecimal(n);
    if n >= 10 {
      DecimalRoundTrip(n / 10);
      assert s[..|s| - 1] == NatToDecimal(n / 10);
    }
  }

  /** A digit string whose first digit is not '0' has a positive value. */
  lemma {:induction false} LeadingDigitPositive(s: string)
    requires |s| >= 1 && AllDigits(s) && s[0] != '0'
    ensures DecimalValue(s) >= 1
    decreases |s|
  {
    if |s| > 1 {
      var init := s[..|s| - 1];
      assert init[0] == s[0];
      LeadingDigitPositive(init);
    }
  }

  /**
   * Digits without a leading zero are the only rendering of their value:
   * such a string is `NatToDecimal` of the number it denotes.
   */
  lemma {:induction false} DecimalCanonical(s: string)
    requires |s| >= 1 && AllDigits(s) && (|s| > 1 ==> s[0] != '0')
    ensures s == NatToDecimal(DecimalValue(s))
    decreases |s|
  {
    var n := DecimalValue(s);
    var d := (s[|s| - 1] as int) - ('0' as int);
    assert 0 <= d < 10;
    assert Digit(d) == s[|s| - 1];
    if |s| == 1 {
      assert s[..0] == [];
      assert n == d;
    } else {
      var init := s[..|s| - 1];
      assert init[0] == s[0];
      LeadingDigitPositive(init);
      DecimalCanonical(init);
      assert n == DecimalValue(init) * 10 + d;
      assert n / 10 == DecimalValue(init) && n % 10 == d;
      assert s == init + [s[|s| - 1]];
    }
  }

  /** Distinct numbers render to distinct strings. */
  lemma DecimalInjective(a: nat, b: nat)
    requires NatToDecimal(a) == NatToDecimal(b)
    ensures a == b
  {
    DecimalRoundTrip(a);
    DecimalRoundTrip(b);
  }
}
