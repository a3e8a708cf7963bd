/** The two check-digit tests that decide whether a number in a text is masked. */
module CheckDigits {
  predicate IsDigit(c: char) { '0' <= c <= '9' }

  predicate IsCapital(c: char) { 'A' <= c <= 'Z' }

  // ---- Bank accounts -------------------------------------------------------------------

  /** What the pattern lets through: capitals and digits. */
  predicate IbanChars(s: string) { forall i :: 0 <= i < |s| ==> IsDigit(s[i]) || IsCapital(s[i]) }

  /** A capital counts as the two digits 10 to 35. */
  function Digits(c: char): seq<nat>
    requires IsDigit(c) || IsCapital(c)
  {
    if IsCapital(c) then [(c as int - 55) / 10, (c as int - 55) % 10] else [c as int - '0' as int]
  }

  function Expand(s: string): seq<nat>
    requires IbanChars(s)
  {
    if s == "" then [] else Expand(s[..|s| - 1]) + Digits(s[|s| - 1])
  }

  /** The number a row of decimal digits spells. */
  function Number(digits: seq<nat>): nat {
    if digits == [] then 0 else Number(digits[..|digits| - 1]) * 10 + digits[|digits| - 1]
  }

  function Rearranged(s: string): string
    requires |s| >= 4
  {
    s[4..] + s[..4]
  }

  /** ISO 13616: the rearranged account, spelled out in digits, is one more than a multiple of 97. */
  predicate ValidIban(s: string)
    requires IbanChars(s)
  {
    15 <= |s| <= 34 && Number(Expand(Rearranged(s))) % 97 == 1
  }

  /** Takes the digits of one character into the remainder of those before. */
  method Feed(from: nat, value: seq<nat>, ghost before: seq<nat>) returns (remainder: nat)
    requires from == Number(before) % 97
    ensures remainder == Number(before + value) % 97
  {
    hide Number;
    remainder := from;
    assert before + value[..0] == before;
    for j := 0 to |value|
      invariant remainder == Number(before + value[..j]) % 97
    {
      NumberNext(before, value, j);
      Carry(Number(before + value[..j]), value[j]);
      remainder := (remainder * 10 + value[j]) % 97;
    }
    assert value[..|value|] == value;
  }

  method Iban(candidate: string) returns (ok: bool)
    requires IbanChars(candidate)
    ensures ok <==> ValidIban(candidate)
  {
    if |candidate| < 15 || |candidate| > 34 { return false; }
    hide Number, Digits, Expand;
    var rearranged := Rearranged(candidate);
    var remainder := 0;
    NothingSpelled(rearranged);
    for i := 0 to |rearranged|
      invariant remainder == Number(Expand(rearranged[..i])) % 97
    {
      ExpandNext(rearranged, i);
      remainder := Feed(remainder, Digits(rearranged[i]), Expand(rearranged[..i]));
    }
    assert rearranged[..|rearranged|] == rearranged;
    ok := remainder == 1;
  }

  lemma NothingSpelled(s: string)
    requires IbanChars(s)
    ensures Number(Expand(s[..0])) == 0
  {
  }

  lemma ExpandNext(s: string, i: nat)
    requires IbanChars(s) && i < |s|
    ensures Expand(s[..i + 1]) == Expand(s[..i]) + Digits(s[i])
  {
    assert s[..i + 1][..i] == s[..i];
  }

  lemma NumberNext(before: seq<nat>, value: seq<nat>, j: nat)
    requires j < |value|
    ensures Number(before + value[..j + 1]) == Number(before + value[..j]) * 10 + value[j]
  {
    assert (before + value[..j + 1])[..|before| + j] == before + value[..j];
  }

  /** Keeping only the remainder loses nothing. */
  lemma Carry(n: nat, d: nat)
    ensures (n % 97 * 10 + d) % 97 == (n * 10 + d) % 97
  {
    assert n * 10 + d == n % 97 * 10 + d + 97 * (n / 97 * 10);
    Multiple(n % 97 * 10 + d, n / 97 * 10);
  }

  lemma Multiple(a: int, k: int)
    ensures (a + 97 * k) % 97 == a % 97
  {
    var q := a / 97;
    assert a == 97 * q + a % 97;
    assert a + 97 * k == 97 * (q + k) + a % 97;
    Unique(a + 97 * k, q + k, a % 97);
  }

  lemma Unique(a: int, q: int, r: int)
    requires a == 97 * q + r && 0 <= r < 97
    ensures a % 97 == r
  {
  }

  // ---- What a wrong account cannot hide -----------------------------------------------------

  function Worth(c: char): nat
    requires IsDigit(c) || IsCapital(c)
  {
    if IsCapital(c) then c as int - 55 else c as int - '0' as int
  }

  function Width(c: char): nat { if IsCapital(c) then 100 else 10 }

  /** The number once another character is spelled out after it. */
  function Append(n: nat, c: char): nat
    requires IsDigit(c) || IsCapital(c)
  {
    n * Width(c) + Worth(c)
  }

  predicate SameKind(a: char, b: char) { (IsDigit(a) && IsDigit(b)) || (IsCapital(a) && IsCapital(b)) }

  lemma DigitsSpell(c: char)
    requires IsDigit(c) || IsCapital(c)
    ensures IsCapital(c) ==> |Digits(c)| == 2 && Digits(c)[0] * 10 + Digits(c)[1] == Worth(c)
    ensures !IsCapital(c) ==> |Digits(c)| == 1 && Digits(c)[0] == Worth(c)
  {
  }

  lemma Spelled(s: string)
    requires s != "" && IbanChars(s)
    ensures Number(Expand(s)) == Append(Number(Expand(s[..|s| - 1])), s[|s| - 1])
  {
    var n := |s| - 1;
    assert Expand(s) == Expand(s[..n]) + Digits(s[n]);
    DigitsSpell(s[n]);
    hide Number, Expand, Digits, Worth;
    var head, c := Expand(s[..n]), s[n];
    var digits := Digits(c);
    NumberNext(head, digits, 0);
    assert head + digits[..0] == head;
    if IsCapital(c) {
      NumberNext(head, digits, 1);
      assert digits[..2] == digits;
    } else {
      assert digits[..1] == digits;
    }
  }

  function Rest(n: nat): nat { n % 97 }

  /** Multiplying by a width forgets nothing of a remainder, since 97 is prime to 10. */
  lemma WidthKeeps(a: nat, b: nat, c: char)
    requires (IsDigit(c) || IsCapital(c)) && Rest(Append(a, c)) == Rest(Append(b, c))
    ensures Rest(a) == Rest(b)
  {
    var w, v := Width(c), Worth(c);
    var q := (a * w + v) / 97 - (b * w + v) / 97;
    assert (a - b) * w == 97 * q;
    assert w == 10 || w == 100;
    if w == 10 {
      assert a - b == 97 * (68 * q - 7 * (a - b));
      Multiple(b, 68 * q - 7 * (a - b));
    } else {
      assert a - b == 97 * (65 * q - 67 * (a - b));
      Multiple(b, 65 * q - 67 * (a - b));
    }
  }

  lemma WorthDiffers(a: char, b: char)
    requires SameKind(a, b) && a != b
    ensures Worth(a) != Worth(b) && Worth(a) < 97 && Worth(b) < 97 && Width(a) == Width(b)
  {
  }

  lemma AppendDiffers(n: nat, a: char, b: char)
    requires SameKind(a, b) && a != b
    ensures Rest(Append(n, a)) != Rest(Append(n, b))
  {
    WorthDiffers(a, b);
    hide Width, Worth;
    NearWorths(n * Width(a), Worth(a), Worth(b));
  }

  lemma NearWorths(a: nat, u: nat, v: nat)
    requires u != v && u < 97 && v < 97
    ensures (a + u) % 97 != (a + v) % 97
  {
  }

  /** The two texts differ at `k` and nowhere else. */
  predicate DifferAt(s: string, t: string, k: nat) {
    k < |s| == |t| && s[k] != t[k] && forall i :: 0 <= i < |s| && i != k ==> s[i] == t[i]
  }

  lemma {:induction false} ChangeShows(s: string, t: string, k: nat)
    requires IbanChars(s) && IbanChars(t) && DifferAt(s, t, k) && SameKind(s[k], t[k])
    ensures Rest(Number(Expand(s))) != Rest(Number(Expand(t)))
    decreases |s|
  {
    hide Number, Expand, Append, Rest;
    var n := |s| - 1;
    Spelled(s);
    Spelled(t);
    if k == n {
      assert s[..n] == t[..n];
      AppendDiffers(Number(Expand(s[..n])), s[n], t[n]);
    } else {
      ChangeShows(s[..n], t[..n], k);
      if Rest(Number(Expand(s))) == Rest(Number(Expand(t))) {
        WidthKeeps(Number(Expand(s[..n])), Number(Expand(t[..n])), s[n]);
      }
    }
  }

  /** No account that passes still passes with one digit, or one letter, replaced by another. */
  lemma IbanCatchesChange(s: string, t: string, k: nat)
    requires IbanChars(s) && IbanChars(t) && DifferAt(s, t, k) && SameKind(s[k], t[k]) && ValidIban(s)
    ensures !ValidIban(t)
  {
    var at := if k < 4 then |s| - 4 + k else k - 4;
    assert DifferAt(Rearranged(s), Rearranged(t), at);
    ChangeShows(Rearranged(s), Rearranged(t), at);
  }

  // ---- Cards ------------------------------------------------------------------------------------

  predicate AllDigits(s: string) { forall i :: 0 <= i < |s| ==> IsDigit(s[i]) }

  function Weighed(c: char, double: bool): nat
    requires IsDigit(c)
  {
    var d := c as int - '0' as int;
    if !double then d else if 2 * d > 9 then 2 * d - 9 else 2 * d
  }

  /** From the right, every second digit doubled and reduced to one. */
  function LuhnSum(s: string, double: bool): nat
    requires AllDigits(s)
  {
    if s == "" then 0 else LuhnSum(s[..|s| - 1], !double) + Weighed(s[|s| - 1], double)
  }

  predicate ValidCard(s: string)
    requires AllDigits(s)
  {
    13 <= |s| <= 19 && LuhnSum(s, false) % 10 == 0
  }

  method Luhn(digits: string) returns (ok: bool)
    requires AllDigits(digits)
    ensures ok <==> ValidCard(digits)
  {
    if |digits| < 13 || |digits| > 19 { return false; }
    hide Weighed;
    var sum, double := 0, false;
    assert digits[..|digits|] == digits;
    for i := |digits| downto 0
      invariant sum + LuhnSum(digits[..i], double) == LuhnSum(digits, false)
    {
      assert digits[..i + 1][..i] == digits[..i];
      sum := sum + Weighed(digits[i], double);
      double := !double;
    }
    ok := sum % 10 == 0;
  }

  lemma {:induction false} CardChangeShows(s: string, t: string, k: nat, double: bool)
    requires AllDigits(s) && AllDigits(t) && DifferAt(s, t, k)
    ensures LuhnSum(s, double) % 10 != LuhnSum(t, double) % 10
    decreases |s|
  {
    var n := |s| - 1;
    hide Weighed;
    if k == n {
      assert s[..n] == t[..n];
      WeighedDiffers(s[n], t[n], double);
      Near(LuhnSum(s[..n], !double), Weighed(s[n], double), Weighed(t[n], double));
    } else {
      CardChangeShows(s[..n], t[..n], k, !double);
      Shifted(LuhnSum(s[..n], !double), LuhnSum(t[..n], !double), Weighed(s[n], double));
    }
  }

  /** No card that passes still passes with one digit replaced by another. */
  lemma CardCatchesChange(s: string, t: string, k: nat)
    requires AllDigits(s) && AllDigits(t) && DifferAt(s, t, k) && ValidCard(s)
    ensures !ValidCard(t)
  {
    CardChangeShows(s, t, k, false);
  }

  /** The two texts differ by one swap of neighbours. */
  predicate SwappedAt(s: string, t: string, k: nat) {
    && k + 1 < |s| == |t| && s[k] == t[k + 1] && s[k + 1] == t[k] && s[k] != s[k + 1]
    && forall i :: 0 <= i < |s| && i != k && i != k + 1 ==> s[i] == t[i]
  }

  lemma {:induction false} CardSwap(s: string, t: string, k: nat, double: bool)
    requires AllDigits(s) && AllDigits(t) && SwappedAt(s, t, k)
    ensures LuhnSum(s, double) % 10 == LuhnSum(t, double) % 10 <==> ZeroAndNine(s[k], s[k + 1])
    decreases |s|
  {
    var n := |s| - 1;
    hide Weighed, ZeroAndNine;
    if k + 1 == n {
      assert s[..n][..k] == t[..n][..k];
      TwoDigits(s[k], s[n], !double);
      Near(LuhnSum(s[..n][..k], double), Weighed(s[k], !double) + Weighed(s[n], double),
           Weighed(s[n], !double) + Weighed(s[k], double));
    } else {
      CardSwap(s[..n], t[..n], k, !double);
      Shifted(LuhnSum(s[..n], !double), LuhnSum(t[..n], !double), Weighed(s[n], double));
    }
  }

  predicate ZeroAndNine(a: char, b: char) { (a == '0' && b == '9') || (a == '9' && b == '0') }

  lemma TwoDigits(a: char, b: char, double: bool)
    requires IsDigit(a) && IsDigit(b) && a != b
    ensures Weighed(a, double) + Weighed(b, !double) == Weighed(b, double) + Weighed(a, !double) <==> ZeroAndNine(a, b)
    ensures -10 < Weighed(a, double) + Weighed(b, !double) - Weighed(b, double) - Weighed(a, !double) < 10
  {
  }

  lemma WeighedDiffers(a: char, b: char, double: bool)
    requires IsDigit(a) && IsDigit(b) && a != b
    ensures 0 < Weighed(a, double) - Weighed(b, double) < 10 || 0 < Weighed(b, double) - Weighed(a, double) < 10
  {
  }

  lemma Shifted(a: int, b: int, u: int)
    ensures (a + u) % 10 == (b + u) % 10 <==> a % 10 == b % 10
  {
    if (a + u) % 10 == (b + u) % 10 { assert a - b == 10 * ((a + u) / 10 - (b + u) / 10); }
    if a % 10 == b % 10 { assert a + u - (b + u) == 10 * (a / 10 - b / 10); }
  }

  lemma Near(a: int, u: int, v: int)
    requires -10 < u - v < 10
    ensures (a + u) % 10 == (a + v) % 10 <==> u == v
  {
  }

  /** A swap of neighbours goes unseen exactly between 0 and 9. */
  lemma CardMissesSwapExactlyWhen(s: string, t: string, k: nat)
    requires AllDigits(s) && AllDigits(t) && SwappedAt(s, t, k) && ValidCard(s)
    ensures ValidCard(t) <==> ZeroAndNine(s[k], s[k + 1])
  {
    CardSwap(s, t, k, false);
  }

  /** Digits count from nought and letters on from ten, and two digits spell a letter. */
  lemma LettersCountOn(a: char, b: char)
    requires SameKind(a, b)
    ensures Worth('0') == 0 && Worth('A') == 10 && Worth(a) - Worth(b) == a as int - b as int
    ensures Digits(a) == if Worth(a) < 10 then [Worth(a)] else [Worth(a) / 10, Worth(a) % 10]
  {
  }

  /** The last digit counts as it is, the one before it as the digits of its double. */
  lemma LastTwoDigits(s: string, a: char, b: char)
    requires AllDigits(s) && IsDigit(a) && IsDigit(b)
    ensures var x, y := a as int - '0' as int, b as int - '0' as int;
            LuhnSum(s + [a] + [b], false) == LuhnSum(s, false) + (2 * x) / 10 + (2 * x) % 10 + y
    ensures LuhnSum("", false) == 0
  {
    var t := s + [a];
    assert (t + [b])[..|t|] == t && (s + [a])[..|s|] == s;
  }
}
