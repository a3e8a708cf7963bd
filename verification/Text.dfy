/** String trimming as the program's runtime does it. */
module Text {
  /** The white space and line terminators a string is trimmed of. */
  predicate IsSpace(c: char) {
    || '\t' <= c <= '\r'
    || c == ' ' || c == '\U{00A0}' || c == '\U{1680}'
    || '\U{2000}' <= c <= '\U{200A}'
    || c == '\U{2028}' || c == '\U{2029}' || c == '\U{202F}' || c == '\U{205F}' || c == '\U{3000}' || c == '\U{FEFF}'
  }

  function TrimStart(s: string): string {
    if s != "" && IsSpace(s[0]) then TrimStart(s[1..]) else s
  }

  function TrimEnd(s: string): string {
    if s != "" && IsSpace(s[|s| - 1]) then TrimEnd(s[..|s| - 1]) else s
  }

  function Trim(s: string): string { TrimEnd(TrimStart(s)) }

  lemma {:induction false} TrimEndAfter(head: string, tail: string)
    requires head != "" && !IsSpace(head[|head| - 1])
    ensures TrimEnd(head + tail) == head + TrimEnd(tail)
    decreases |tail|
  {
    if tail == "" {
      assert head + tail == head;
    } else if IsSpace(tail[|tail| - 1]) {
      assert (head + tail)[..|head + tail| - 1] == head + tail[..|tail| - 1];
      TrimEndAfter(head, tail[..|tail| - 1]);
    }
  }

  lemma {:induction false} TrimEndShorter(s: string)
    ensures |TrimEnd(s)| <= |s|
    ensures s != "" && IsSpace(s[|s| - 1]) ==> |TrimEnd(s)| < |s|
    decreases |s|
  {
    if s != "" && IsSpace(s[|s| - 1]) { TrimEndShorter(s[..|s| - 1]); }
  }

  /** What is left begins and ends in no space, and what is taken off is nothing but. */
  lemma TrimMeans(s: string)
    ensures exists a, b :: 0 <= a <= b <= |s| && Trim(s) == s[a..b] && Outside(s, a, b)
    ensures Trim(s) != "" ==> !IsSpace(Trim(s)[0]) && !IsSpace(Trim(s)[|Trim(s)| - 1])
  {
    hide IsSpace;
    var a := StartTrims(s);
    var b := EndTrims(s[a..]);
    assert s[a..][..b] == s[a..a + b];
    forall i | 0 <= i < |s| && !(a <= i < a + b) ensures IsSpace(s[i]) {
      if i >= a { assert s[i] == s[a..][i - a]; }
    }
    assert Outside(s, a, a + b);
    if b > 0 { assert s[a..a + b][0] == s[a..][0]; }
  }

  predicate Outside(s: string, a: nat, b: nat) { forall i :: 0 <= i < |s| && !(a <= i < b) ==> IsSpace(s[i]) }

  lemma {:induction false} StartTrims(s: string) returns (a: nat)
    ensures a <= |s| && TrimStart(s) == s[a..]
    ensures (forall i :: 0 <= i < a ==> IsSpace(s[i])) && (a < |s| ==> !IsSpace(s[a]))
  {
    hide IsSpace;
    if s != "" && IsSpace(s[0]) {
      var b := StartTrims(s[1..]);
      a := b + 1;
      assert s[1..][b..] == s[a..];
      forall i | 0 <= i < a ensures IsSpace(s[i]) { if i > 0 { assert s[i] == s[1..][i - 1]; } }
    } else {
      a := 0;
    }
  }

  lemma {:induction false} EndTrims(s: string) returns (b: nat)
    ensures b <= |s| && TrimEnd(s) == s[..b]
    ensures (forall i :: b <= i < |s| ==> IsSpace(s[i])) && (b > 0 ==> !IsSpace(s[b - 1]))
    decreases |s|
  {
    hide IsSpace;
    if s != "" && IsSpace(s[|s| - 1]) {
      b := EndTrims(s[..|s| - 1]);
      assert s[..|s| - 1][..b] == s[..b];
    } else {
      b := |s|;
    }
  }
}
