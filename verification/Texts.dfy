/** Texts as people type them: white space around them does not count. */
module Texts {
  predicate IsSpace(c: char) { c in {' ', '\t', '\n', '\r'} }

  predicate Blank(s: string) { forall c :: c in s ==> IsSpace(c) }

  predicate ValidText(s: string, maxLength: nat) { !Blank(s) && |s| <= maxLength }

  function TrimLeft(s: string): string {
    if s != [] && IsSpace(s[0]) then TrimLeft(s[1..]) else s
  }

  function TrimRight(s: string): string {
    if s != [] && IsSpace(s[|s| - 1]) then TrimRight(s[..|s| - 1]) else s
  }

  /** The text without the white space in front and behind, as `strip` gives it. */
  function Trim(s: string): string { TrimRight(TrimLeft(s)) }

  /** What is left starts and ends with something else than white space. */
  predicate Bare(s: string) { s != [] ==> !IsSpace(s[0]) && !IsSpace(s[|s| - 1]) }

  lemma {:induction false} TrimLeftKeeps(s: string)
    ensures var r := TrimLeft(s);
            |r| <= |s| && (r != [] ==> !IsSpace(r[0])) && (forall c :: c in s && !IsSpace(c) ==> c in r) && (forall c :: c in r ==> c in s)
  {
    if s != [] && IsSpace(s[0]) {
      TrimLeftKeeps(s[1..]);
      assert s == [s[0]] + s[1..];
    }
  }

  lemma {:induction false} TrimRightKeeps(s: string)
    ensures var r := TrimRight(s);
            && |r| <= |s| && (r != [] ==> !IsSpace(r[|r| - 1]) && r[0] == s[0])
            && (forall c :: c in s && !IsSpace(c) ==> c in r) && (forall c :: c in r ==> c in s)
  {
    if s != [] && IsSpace(s[|s| - 1]) {
      TrimRightKeeps(s[..|s| - 1]);
      assert s == s[..|s| - 1] + [s[|s| - 1]];
    }
  }

  /** Trimming leaves a bare text with every character that is not white space, and is done once. */
  lemma TrimIsBare(s: string)
    ensures Bare(Trim(s)) && |Trim(s)| <= |s|
    ensures Blank(Trim(s)) <==> Blank(s)
    ensures Trim(Trim(s)) == Trim(s)
  {
    TrimLeftKeeps(s);
    TrimRightKeeps(TrimLeft(s));
  }

  lemma ValidStaysValid(s: string, maxLength: nat)
    requires ValidText(s, maxLength)
    ensures ValidText(Trim(s), maxLength)
  {
    TrimIsBare(s);
  }

  /** Trimming cuts the text down to its middle: what goes is white space, what stays is as it was. */
  lemma {:induction false} TrimIsMiddle(s: string) returns (i: nat, j: nat)
    ensures i <= j <= |s| && Trim(s) == s[i..j] && Bare(s[i..j])
    ensures forall k :: 0 <= k < i || j <= k < |s| ==> s[k] in " \t\n\r"
  {
    i := LeftEnd(s);
    var n := RightEnd(s[i..]);
    j := i + n;
    assert s[i..][..n] == s[i..j];
    TrimIsBare(s);
    forall k | j <= k < |s| ensures s[k] in " \t\n\r" {
      assert s[i..][k - i] == s[k];
    }
  }

  lemma {:induction false} LeftEnd(s: string) returns (i: nat)
    ensures i <= |s| && TrimLeft(s) == s[i..] && forall k :: 0 <= k < i ==> s[k] in " \t\n\r"
  {
    if s != [] && IsSpace(s[0]) {
      i := LeftEnd(s[1..]);
      assert forall k :: 1 <= k < |s| ==> s[k] == s[1..][k - 1];
      assert s[1..][i..] == s[i + 1..];
      i := i + 1;
    } else {
      i := 0;
    }
  }

  lemma {:induction false} RightEnd(s: string) returns (n: nat)
    ensures n <= |s| && TrimRight(s) == s[..n] && forall k :: n <= k < |s| ==> s[k] in " \t\n\r"
  {
    if s != [] && IsSpace(s[|s| - 1]) {
      n := RightEnd(s[..|s| - 1]);
    } else {
      n := |s|;
    }
  }

  /** An acceptable text has something else than white space in it and is not too long. */
  lemma ValidTextIs(s: string, maxLength: nat)
    ensures ValidText(s, maxLength) <==> |s| <= maxLength && exists i :: 0 <= i < |s| && s[i] !in " \t\n\r"
  {
    if c :| c in s && !IsSpace(c) {
      var i :| 0 <= i < |s| && s[i] == c;
      assert s[i] !in " \t\n\r";
    }
    if i :| 0 <= i < |s| && s[i] !in " \t\n\r" {
      assert s[i] in s && !IsSpace(s[i]) by { SpacesAre(s[i]); }
    }
  }

  lemma SpacesAre(c: char)
    ensures IsSpace(c) <==> c in " \t\n\r"
  {
    assert " \t\n\r" == [' ', '\t', '\n', '\r'];
  }
}
