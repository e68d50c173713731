/** The few Python string operations the models need: whitespace, `strip`, `split` at a character, decimals. */
module Text {
  import opened Common

  /** `str.splitlines` boundaries (a file read as text never holds '\r', but a value may). */
  predicate IsBreak(c: char) {
    c in ['\n', '\r', '\U{0B}', '\U{0C}', '\U{1C}', '\U{1D}', '\U{1E}', '\U{85}', '\U{2028}', '\U{2029}']
  }

  /** `str.isspace`; every line boundary is one. */
  predicate IsSpace(c: char) {
    || IsBreak(c)
    || c in ['\t', ' ', '\U{1F}', '\U{A0}', '\U{1680}', '\U{202F}', '\U{205F}', '\U{3000}']
    || '\U{2000}' <= c <= '\U{200A}'
  }

  /** Both by code point. */
  lemma SpacesAre(c: char)
    ensures IsBreak(c) <==> 10 <= c as int <= 13 || 28 <= c as int <= 30 || c as int in {133, 8232, 8233}
    ensures IsSpace(c) <==> 9 <= c as int <= 13 || 28 <= c as int <= 32 || 8192 <= c as int <= 8202
                            || c as int in {133, 160, 5760, 8232, 8233, 8239, 8287, 12288}
  {
  }

  predicate IsDigit(c: char) { '0' <= c <= '9' }

  // ---------- strip ----------

  /** `s.strip()` is the case of whitespace, `s.strip("x")` that of one character. */
  datatype Trim = Spaces | Only(c: char) {
    predicate Drops(x: char) { match this case Spaces => IsSpace(x) case Only(c) => x == c }
  }

  function TrimLeft(t: Trim, s: string): string {
    if s != [] && t.Drops(s[0]) then TrimLeft(t, s[1..]) else s
  }

  function TrimRight(t: Trim, s: string): string {
    if s != [] && t.Drops(s[|s| - 1]) then TrimRight(t, s[..|s| - 1]) else s
  }

  function Strip(t: Trim, s: string): string { TrimRight(t, TrimLeft(t, s)) }

  /** Neither end of `s` would be dropped. */
  predicate Clean(t: Trim, s: string) { s != [] ==> !t.Drops(s[0]) && !t.Drops(s[|s| - 1]) }

  lemma {:induction false} TrimLeftIs(t: Trim, s: string)
    ensures |TrimLeft(t, s)| <= |s| && TrimLeft(t, s) == s[|s| - |TrimLeft(t, s)|..]
    ensures TrimLeft(t, s) != [] ==> !t.Drops(TrimLeft(t, s)[0])
  {
    if s != [] && t.Drops(s[0]) {
      TrimLeftIs(t, s[1..]);
    } else {
      assert s[0..] == s;
    }
  }

  lemma {:induction false} TrimRightIs(t: Trim, s: string)
    ensures |TrimRight(t, s)| <= |s| && TrimRight(t, s) == s[..|TrimRight(t, s)|]
    ensures TrimRight(t, s) != [] ==> !t.Drops(TrimRight(t, s)[|TrimRight(t, s)| - 1])
  {
    if s != [] && t.Drops(s[|s| - 1]) { TrimRightIs(t, s[..|s| - 1]); }
  }

  /** Stripping leaves a clean string, and leaves a clean string alone. */
  lemma StripIsClean(t: Trim, s: string)
    ensures Clean(t, Strip(t, s))
    ensures Clean(t, s) ==> Strip(t, s) == s
  {
    TrimLeftIs(t, s);
    TrimRightIs(t, TrimLeft(t, s));
  }

  /** A stripped string is the original iff the original was clean. */
  lemma StripFixes(t: Trim, s: string)
    ensures Strip(t, s) == s <==> Clean(t, s)
  {
    StripIsClean(t, s);
  }

  /** Stripping shortens a string unless it leaves it alone. */
  lemma StripShrinks(t: Trim, s: string)
    ensures |Strip(t, s)| <= |s|
    ensures |Strip(t, s)| == |s| ==> Strip(t, s) == s
  {
    TrimLeftIs(t, s);
    TrimRightIs(t, TrimLeft(t, s));
  }

  /** One character at each end, both dropped. */
  lemma StripWrapped(t: Trim, a: char, s: string, b: char)
    requires t.Drops(a) && t.Drops(b)
    ensures Strip(t, [a] + s + [b]) == Strip(t, s)
  {
    var w := [a] + s + [b];
    assert w[1..] == s + [b];
    StripTail(t, s, b);
  }

  lemma {:induction false} StripTail(t: Trim, s: string, b: char)
    requires t.Drops(b)
    ensures Strip(t, s + [b]) == Strip(t, s)
  {
    if s == [] {
      assert s + [b] == [b];
      assert TrimLeft(t, [b]) == TrimLeft(t, [b][1..]);
    } else if t.Drops(s[0]) {
      assert (s + [b])[1..] == s[1..] + [b];
      StripTail(t, s[1..], b);
    } else {
      assert (s + [b])[..|s|] == s;
    }
  }

  lemma {:induction false} StripAfterTrim(t: Trim, s: string)
    ensures Strip(t, TrimRight(t, s)) == Strip(t, s)
  {
    if s != [] && t.Drops(s[|s| - 1]) {
      var init, last := s[..|s| - 1], s[|s| - 1];
      assert s == init + [last];
      StripAfterTrim(t, init);
      StripTail(t, init, last);
      assert TrimRight(t, s) == TrimRight(t, init);
    }
  }

  /** Trimming on the right stops at a character that is kept. */
  lemma {:induction false} TrimRightStops(t: Trim, s: string, c: char, w: string)
    requires !t.Drops(c)
    ensures TrimRight(t, s + [c] + w) == s + [c] + TrimRight(t, w)
  {
    var all := s + [c] + w;
    if w == [] {
      assert all == s + [c] && all[|all| - 1] == c;
    } else {
      assert all[|all| - 1] == w[|w| - 1];
      if t.Drops(w[|w| - 1]) {
        assert all[..|all| - 1] == s + [c] + w[..|w| - 1];
        TrimRightStops(t, s, c, w[..|w| - 1]);
      }
    }
  }

  // ---------- split at the first occurrence of a character ----------

  /** Where `c` first occurs; `|s|` if it does not. */
  function Find(s: string, c: char): (i: nat)
    ensures i <= |s|
    ensures i < |s| ==> s[i] == c
    ensures forall k :: 0 <= k < i ==> s[k] != c
    ensures i == |s| <==> c !in s
  {
    if s == [] then 0 else if s[0] == c then 0 else 1 + Find(s[1..], c)
  }

  lemma FindIsFirst(s: string, c: char, i: nat)
    requires i < |s| && s[i] == c && forall k :: 0 <= k < i ==> s[k] != c
    ensures Find(s, c) == i
  {
  }

  // ---------- decimals ----------

  function Digit(d: nat): char
    requires d < 10
  {
    '0' + d as char
  }

  /** `str(n)` for a natural number. */
  function Print(n: nat): string {
    if n < 10 then [Digit(n)] else Print(n / 10) + [Digit(n % 10)]
  }

  /** The digits accepted by `int(...)`: at least one, with single underscores allowed between them. */
  function ParseDigits(s: string): Option<nat> {
    if s == [] || !IsDigit(s[|s| - 1]) then None
    else
      var n, d := |s| - 1, (s[|s| - 1] - '0') as nat;
      if n == 0 then Some(d)
      else
        var high := ParseDigits(if s[n - 1] == '_' then s[..n - 1] else s[..n]);
        if high.None? then None else Some(10 * high.value + d)
  }

  /** `int(s)` on a string of ASCII digits, sign and surrounding whitespace. */
  function ParseInt(s: string): Option<int> {
    var t := Strip(Spaces, s);
    if t != [] && (t[0] == '-' || t[0] == '+') then
      var n := ParseDigits(t[1..]);
      if n.None? then None else Some((if t[0] == '-' then -1 else 1) * n.value)
    else
      var n := ParseDigits(t);
      if n.None? then None else Some(n.value)
  }

  lemma {:induction false} PrintIsDigits(n: nat)
    ensures Print(n) != [] && forall i :: 0 <= i < |Print(n)| ==> IsDigit(Print(n)[i])
    ensures ParseDigits(Print(n)) == Some(n)
  {
    if n >= 10 {
      PrintIsDigits(n / 10);
      var s, high := Print(n), Print(n / 10);
      assert s[..|s| - 1] == high;
      assert IsDigit(high[|high| - 1]) && s[|s| - 2] == high[|high| - 1];
    }
  }

  lemma DigitsAreNotSpace(c: char)
    requires IsDigit(c)
    ensures !IsSpace(c)
  {
  }

  /** Printing and parsing undo each other. */
  lemma ParsePrint(n: nat)
    ensures ParseInt(Print(n)) == Some(n) && Strip(Spaces, Print(n)) == Print(n)
  {
    var s := Print(n);
    PrintIsDigits(n);
    DigitsAreNotSpace(s[0]);
    DigitsAreNotSpace(s[|s| - 1]);
    StripIsClean(Spaces, s);
  }
}
