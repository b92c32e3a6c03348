/**
 * The small amount of string machinery the preprocessor relies on: the two
 * character classes of its patterns, substring search (`t in s`), splitting on
 * and joining with newlines, and rendering a version number in decimal.
 */
module Text {

  /** `[0-9A-Z_a-z]`, the class used by both lookbehinds and the identifier lookahead. */
  predicate IsWordChar(c: char) {
    ('0' <= c <= '9') || ('A' <= c <= 'Z') || ('a' <= c <= 'z') || c == '_'
  }

  /** `\s` in a str pattern: exactly the characters for which `str.isspace()` holds. */
  predicate IsSpace(c: char) {
    || ('\t' <= c <= '\r')                    // tab, newline, vertical tab, form feed, carriage return
    || ('\U{001C}' <= c <= '\U{001F}')        // file, group, record and unit separators
    || c == ' ' || c == '\U{0085}' || c == '\U{00A0}' || c == '\U{1680}'
    || ('\U{2000}' <= c <= '\U{200A}')
    || c == '\U{2028}' || c == '\U{2029}' || c == '\U{202F}' || c == '\U{205F}' || c == '\U{3000}'
  }

  /** `t` occurs in `s` at position `i`, compared character by character from `t[k]` on. */
  predicate OccursFrom(s: string, i: nat, t: string, k: nat)
    decreases |t| - k
  {
    k >= |t| || (i + k < |s| && s[i + k] == t[k] && OccursFrom(s, i, t, k + 1))
  }

  /** `t` occurs in `s` at position `i`. */
  predicate OccursAt(s: string, i: nat, t: string) {
    i + |t| <= |s| && OccursFrom(s, i, t, 0)
  }

  /** The character-by-character comparison agrees with comparing a slice. */
  lemma {:induction false} OccursFromIff(s: string, i: nat, t: string, k: nat)
    requires k <= |t| && i + |t| <= |s|
    ensures OccursFrom(s, i, t, k) <==> s[i + k..i + |t|] == t[k..]
    decreases |t| - k
  {
    if k < |t| {
      OccursFromIff(s, i, t, k + 1);
      assert s[i + k..i + |t|] == [s[i + k]] + s[i + k + 1..i + |t|];
      assert t[k..] == [t[k]] + t[k + 1..];
    }
  }

  lemma OccursAtIff(s: string, i: nat, t: string)
    ensures OccursAt(s, i, t) <==> i + |t| <= |s| && s[i..i + |t|] == t
  {
    if i + |t| <= |s| {
      OccursFromIff(s, i, t, 0);
    }
  }

  /** `t` occurs in `s` at some position from `i` on. */
  predicate ContainsFrom(s: string, t: string, i: nat)
    decreases |s| + 1 - i
  {
    i <= |s| && (OccursAt(s, i, t) || ContainsFrom(s, t, i + 1))
  }

  /** `t in s` for strings. */
  predicate Contains(s: string, t: string) {
    ContainsFrom(s, t, 0)
  }

  /** `Contains` is substring search: some position of `s` holds an occurrence of `t`. */
  lemma ContainsIff(s: string, t: string)
    ensures Contains(s, t) <==> exists i :: 0 <= i <= |s| && OccursAt(s, i, t)
  {
    ContainsFromIff(s, t, 0);
  }

  lemma {:induction false} ContainsFromIff(s: string, t: string, i: nat)
    ensures ContainsFrom(s, t, i) <==> exists j :: i <= j <= |s| && OccursAt(s, j, t)
    decreases |s| + 1 - i
  {
    if i <= |s| {
      ContainsFromIff(s, t, i + 1);
    }
  }

  /** A text lacking one of the characters of `t` does not contain `t`. */
  lemma MissingCharacter(s: string, t: string, j: nat)
    requires j < |t| && t[j] !in s
    ensures !Contains(s, t)
  {
    ContainsIff(s, t);
    forall q | 0 <= q <= |s| && q + |t| <= |s|
      ensures !OccursAt(s, q, t)
    {
      OccursAtIff(s, q, t);
      assert s[q..q + |t|][j] == s[q + j];
    }
  }

  /** Every text occurs at the start of any text it begins. */
  lemma OccursAtStart(t: string, rest: string)
    ensures OccursAt(t + rest, 0, t)
  {
    OccursAtIff(t + rest, 0, t);
    assert (t + rest)[0..|t|] == t;
  }

  /**
   * In `pre + mid + post`, `t` starts at no position that would put its `j`-th
   * character inside `mid`, when that character is missing from `mid`; if
   * `post` is too short to hold the rest of `t`, `t` starts nowhere from there on.
   */
  lemma MissingCharacterIn(s: string, pre: string, mid: string, post: string, t: string, j: nat)
    requires s == pre + mid + post
    requires j < |t| && t[j] !in mid
    ensures forall q: nat :: |pre| <= q + j < |pre| + |mid| ==> !OccursAt(s, q, t)
    ensures |post| + j < |t| ==> forall q: nat :: |pre| <= q + j ==> !OccursAt(s, q, t)
  {
    forall q: nat | |pre| <= q + j < |pre| + |mid|
      ensures !OccursAt(s, q, t)
    {
      OccursAtIff(s, q, t);
      assert s[q + j] == mid[q + j - |pre|];
    }
  }

  /** `s.split('\n')`: never empty, and no piece holds a newline. */
  function Split(s: string): (lines: seq<string>)
    ensures |lines| >= 1
    ensures forall k :: 0 <= k < |lines| ==> '\n' !in lines[k]
    decreases |s|
  {
    if s == [] then [[]]
    else
      var rest := Split(s[1..]);
      if s[0] == '\n' then [[]] + rest
      else [[s[0]] + rest[0]] + rest[1..]
  }

  /** `'\n'.join(lines)`. */
  function Join(lines: seq<string>): string
    requires |lines| >= 1
    decreases |lines|
  {
    if |lines| == 1 then lines[0] else lines[0] + "\n" + Join(lines[1..])
  }

  /** Joining the pieces of a split gives back the original text. */
  lemma {:induction false} JoinSplit(s: string)
    ensures Join(Split(s)) == s
    decreases |s|
  {
    if s != [] {
      var rest := Split(s[1..]);
      JoinSplit(s[1..]);
      if s[0] == '\n' {
        assert Split(s) == [[]] + rest;
        assert Join(Split(s)) == "\n" + Join(rest);
      } else {
        assert Split(s) == [[s[0]] + rest[0]] + rest[1..];
        if |rest| == 1 {
          assert Join(Split(s)) == [s[0]] + rest[0];
        } else {
          assert Join(rest) == rest[0] + "\n" + Join(rest[1..]);
          assert Join(Split(s)) == [s[0]] + rest[0] + "\n" + Join(rest[1..]);
        }
        assert s == [s[0]] + s[1..];
      }
    }
  }

  /** A text without newlines splits into itself alone. */
  lemma {:induction false} SplitSingle(w: string)
    requires '\n' !in w
    ensures Split(w) == [w]
    decreases |w|
  {
    if w != [] {
      assert '\n' !in w[1..] by { assert forall c :: c in w[1..] ==> c in w; }
      SplitSingle(w[1..]);
      assert [w[0]] + w[1..] == w;
    }
  }

  /** Splitting `w + "\n" + rest` where `w` holds no newline peels `w` off the front. */
  lemma {:induction false} SplitCons(w: string, rest: string)
    requires '\n' !in w
    ensures Split(w + "\n" + rest) == [w] + Split(rest)
    decreases |w|
  {
    if w == [] {
      assert w + "\n" + rest == ['\n'] + rest;
      assert (['\n'] + rest)[1..] == rest;
    } else {
      var s := w + "\n" + rest;
      assert s[1..] == w[1..] + "\n" + rest;
      assert '\n' !in w[1..] by { assert forall c :: c in w[1..] ==> c in w; }
      SplitCons(w[1..], rest);
      assert s[0] == w[0] && s[0] != '\n';
      assert [w[0]] + w[1..] == w;
    }
  }

  /** Splitting a join of newline-free pieces gives back those pieces. */
  lemma {:induction false} SplitJoin(lines: seq<string>)
    requires |lines| >= 1
    requires forall k :: 0 <= k < |lines| ==> '\n' !in lines[k]
    ensures Split(Join(lines)) == lines
    decreases |lines|
  {
    if |lines| == 1 {
      SplitSingle(lines[0]);
    } else {
      SplitJoin(lines[1..]);
      SplitCons(lines[0], Join(lines[1..]));
      assert [lines[0]] + lines[1..] == lines;
    }
  }

  /** The decimal digit character for `d`. */
  function DigitChar(d: nat): (c: char)
    requires d < 10
    ensures '0' <= c <= '9'
  {
    (48 + d) as char
  }

  /** `str(n)` for a non-negative integer: its shortest decimal spelling. */
  function Decimal(n: nat): (r: string)
    ensures |r| >= 1
    ensures forall k :: 0 <= k < |r| ==> '0' <= r[k] <= '9'
    ensures r[0] == '0' ==> n == 0
    decreases n
  {
    if n < 10 then [DigitChar(n)] else Decimal(n / 10) + [DigitChar(n % 10)]
  }

  /** The number a string of decimal digits denotes. */
  function DecimalValue(s: string): nat
    requires forall k :: 0 <= k < |s| ==> '0' <= s[k] <= '9'
    decreases |s|
  {
    if s == [] then 0
    else DecimalValue(s[..|s| - 1]) * 10 + ((s[|s| - 1] as int) - 48)
  }

  /** Reading back the decimal spelling of `n` gives `n`. */
  lemma {:induction false} DecimalRoundTrip(n: nat)
    ensures DecimalValue(Decimal(n)) == n
    decreases n
  {
    if n >= 10 {
      DecimalRoundTrip(n / 10);
      var r := Decimal(n);
      assert r[..|r| - 1] == Decimal(n / 10);
    }
  }
}
