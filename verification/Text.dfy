/** The string operations the pattern parser uses, on strings of single bytes. */
module Text {
  import opened Wrappers

  predicate IsDigit(c: char) { '0' <= c <= '9' }

  predicate IsHexDigit(c: char) { IsDigit(c) || 'a' <= c <= 'f' }

  predicate IsUpper(c: char) { 'A' <= c <= 'Z' }

  predicate IsAlphanumeric(c: char) { IsDigit(c) || IsUpper(c) || 'a' <= c <= 'z' }

  predicate IsWhitespace(c: char) { c == ' ' || '\t' <= c <= '\r' }

  function LowerChar(c: char): char {
    if IsUpper(c) then c - 'A' + 'a' else c
  }

  function ToLower(s: string): string {
    if s == [] then [] else [LowerChar(s[0])] + ToLower(s[1..])
  }

  lemma {:induction false} ToLowerKeeps(s: string)
    ensures |ToLower(s)| == |s|
    ensures forall i :: 0 <= i < |s| ==> ToLower(s)[i] == LowerChar(s[i])
  {
    if s != [] {
      ToLowerKeeps(s[1..]);
    }
  }

  lemma LowerIsItself(s: string)
    requires forall c :: c in s ==> !IsUpper(c)
    ensures ToLower(s) == s
  {
    ToLowerKeeps(s);
  }

  // ----- Trimming and splitting -----

  function TrimLeft(s: string): string {
    if s != [] && IsWhitespace(s[0]) then TrimLeft(s[1..]) else s
  }

  function TrimRight(s: string): string {
    if s != [] && IsWhitespace(s[|s| - 1]) then TrimRight(s[..|s| - 1]) else s
  }

  function Trim(s: string): string { TrimRight(TrimLeft(s)) }

  lemma TrimKeeps(s: string)
    requires s != [] && !IsWhitespace(s[0]) && !IsWhitespace(s[|s| - 1])
    ensures Trim(s) == s
  {
  }

  lemma {:induction false} TrimLeftSkips(w: string, s: string)
    requires forall c :: c in w ==> IsWhitespace(c)
    ensures TrimLeft(w + s) == TrimLeft(s)
  {
    if w == [] {
      assert w + s == s;
    } else {
      assert (w + s)[1..] == w[1..] + s && w[0] in w;
      TrimLeftSkips(w[1..], s);
    }
  }

  lemma {:induction false} TrimRightSkips(s: string, w: string)
    requires forall c :: c in w ==> IsWhitespace(c)
    ensures TrimRight(s + w) == TrimRight(s)
  {
    if w == [] {
      assert s + w == s;
    } else {
      var n := |w| - 1;
      assert (s + w)[..|s + w| - 1] == s + w[..n] && (s + w)[|s + w| - 1] == w[n] && w[n] in w;
      TrimRightSkips(s, w[..n]);
    }
  }

  lemma {:induction false} TrimLeftAlone(s: string, w: string)
    ensures TrimLeft(s + w) == if TrimLeft(s) == [] then TrimLeft(w) else TrimLeft(s) + w
  {
    if s == [] {
      assert s + w == w;
    } else if IsWhitespace(s[0]) {
      assert (s + w)[1..] == s[1..] + w;
      TrimLeftAlone(s[1..], w);
    } else {
      assert (s + w)[0] == s[0];
    }
  }

  /** Space around a text does not matter. */
  lemma TrimIgnoresSpace(before: string, s: string, after: string)
    requires forall c :: c in before || c in after ==> IsWhitespace(c)
    ensures Trim(before + s + after) == Trim(s)
  {
    assert before + s + after == before + (s + after);
    TrimLeftSkips(before, s + after);
    TrimLeftAlone(s, after);
    if TrimLeft(s) == [] {
      TrimLeftSkips(after, []);
      assert after + [] == after;
    } else {
      TrimRightSkips(TrimLeft(s), after);
    }
  }

  /** `split_once`. */
  function SplitFirst(s: string, c: char): Option<(string, string)> {
    if s == [] then None
    else if s[0] == c then Some(([], s[1..]))
    else
      match SplitFirst(s[1..], c)
      case None => None
      case Some((a, b)) => Some(([s[0]] + a, b))
  }

  /** `rsplit_once`. */
  function SplitLast(s: string, c: char): Option<(string, string)> {
    if s == [] then None
    else
      var n := |s| - 1;
      if s[n] == c then Some((s[..n], []))
      else
        match SplitLast(s[..n], c)
        case None => None
        case Some((a, b)) => Some((a, b + [s[n]]))
  }

  lemma {:induction false} SplitFirstAt(a: string, c: char, b: string)
    requires c !in a
    ensures SplitFirst(a + [c] + b, c) == Some((a, b))
  {
    var s := a + [c] + b;
    if a == [] {
      assert s[1..] == b;
    } else {
      SplitFirstAt(a[1..], c, b);
      assert s[0] == a[0] && s[1..] == a[1..] + [c] + b;
      assert a == [a[0]] + a[1..];
    }
  }

  lemma {:induction false} SplitLastAt(a: string, c: char, b: string)
    requires c !in b
    ensures SplitLast(a + [c] + b, c) == Some((a, b))
  {
    var s := a + [c] + b;
    var n := |s| - 1;
    if b == [] {
      assert s[..n] == a;
    } else {
      var m := |b| - 1;
      SplitLastAt(a, c, b[..m]);
      assert s[..n] == a + [c] + b[..m] && s[n] == b[m];
      assert b == b[..m] + [b[m]];
    }
  }

  // ----- Numbers -----

  function ShowNumber(n: nat): string {
    if n < 10 then [('0' as int + n) as char] else ShowNumber(n / 10) + ShowNumber(n % 10)
  }

  predicate IsNumber(s: string) {
    s != [] && forall c :: c in s ==> IsDigit(c)
  }

  function NumberOf(s: string): nat {
    if s == [] then 0
    else
      var c := s[|s| - 1];
      NumberOf(s[..|s| - 1]) * 10 + if IsDigit(c) then c as int - '0' as int else 0
  }

  /** Reading an unsigned number in decimal, with an optional plus sign. */
  function ReadNumber(s: string): Option<nat> {
    var digits := if "+" <= s then s[1..] else s;
    if IsNumber(digits) then Some(NumberOf(digits)) else None
  }

  lemma {:induction false} ShowIsNumber(n: nat)
    ensures IsNumber(ShowNumber(n)) && NumberOf(ShowNumber(n)) == n
  {
    if n < 10 {
      assert ShowNumber(n)[..0] == [];
    } else {
      ShowIsNumber(n / 10);
      var front, s := ShowNumber(n / 10), ShowNumber(n);
      assert |ShowNumber(n % 10)| == 1 && s[..|s| - 1] == front;
    }
  }

  lemma NumberRoundTrip(n: nat)
    ensures ReadNumber(ShowNumber(n)) == Some(n)
    ensures ReadNumber("+" + ShowNumber(n)) == Some(n)
    ensures ShowNumber(n) != [] && forall c :: c in ShowNumber(n) ==> IsDigit(c)
  {
    assert ("+" + ShowNumber(n))[1..] == ShowNumber(n);
    ShowIsNumber(n);
    assert ShowNumber(n)[0] in ShowNumber(n);
  }
}
