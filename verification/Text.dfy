/** The string handling that order ids and statuses go through. */
module Text {

  predicate IsSpace(c: char) {
    c in {'\t', '\n', '\U{0B}', '\U{0C}', '\r', ' ', '\U{85}', '\U{A0}', '\U{1680}',
          '\U{2028}', '\U{2029}', '\U{202F}', '\U{205F}', '\U{3000}'} ||
    '\U{2000}' <= c <= '\U{200A}'
  }

  /** White space as Unicode has it, by code point. */
  lemma SpacesByCodePoint(c: char)
    ensures var n := c as int;
            IsSpace(c) <==>
              9 <= n <= 13 || 0x2000 <= n <= 0x200A ||
              n in {0x20, 0x85, 0xA0, 0x1680, 0x2028, 0x2029, 0x202F, 0x205F, 0x3000}
  {
  }

  function TrimLeft(s: string): string {
    if s != "" && IsSpace(s[0]) then TrimLeft(s[1..]) else s
  }

  function TrimRight(s: string): string {
    if s != "" && IsSpace(s[|s| - 1]) then TrimRight(s[..|s| - 1]) else s
  }

  /** The text without its leading and trailing white space. */
  function TrimSpace(s: string): string {
    TrimRight(TrimLeft(s))
  }

  ghost predicate AllSpace(s: string) {
    forall c :: c in s ==> IsSpace(c)
  }

  ghost predicate Trimmed(s: string) {
    s != "" ==> !IsSpace(s[0]) && !IsSpace(s[|s| - 1])
  }

  lemma {:induction false} TrimLeftSplits(s: string) returns (lead: string)
    ensures s == lead + TrimLeft(s) && AllSpace(lead)
    ensures TrimLeft(s) != "" ==> !IsSpace(TrimLeft(s)[0])
  {
    if s != "" && IsSpace(s[0]) {
      var rest := TrimLeftSplits(s[1..]);
      lead := [s[0]] + rest;
      assert TrimLeft(s) == TrimLeft(s[1..]);
      hide TrimLeft, IsSpace;
      assert s == [s[0]] + s[1..];
      assert [s[0]] + s[1..] == lead + TrimLeft(s[1..]);
    } else {
      lead := "";
    }
  }

  lemma {:induction false} TrimRightSplits(s: string) returns (trail: string)
    ensures s == TrimRight(s) + trail && AllSpace(trail)
    ensures TrimRight(s) != "" ==> !IsSpace(TrimRight(s)[|TrimRight(s)| - 1])
  {
    if s != "" && IsSpace(s[|s| - 1]) {
      var init, last := s[..|s| - 1], s[|s| - 1];
      var rest := TrimRightSplits(init);
      trail := rest + [last];
      assert TrimRight(s) == TrimRight(init);
      hide TrimRight, IsSpace;
      assert s == init + [last];
      assert init + [last] == TrimRight(init) + trail;
    } else {
      trail := "";
    }
  }

  /** Trimming cuts off white space at both ends, only that, and all of it. */
  lemma TrimSpaceLaw(s: string) returns (lead: string, trail: string)
    ensures s == lead + TrimSpace(s) + trail && AllSpace(lead) && AllSpace(trail)
    ensures Trimmed(TrimSpace(s))
    ensures TrimSpace(TrimSpace(s)) == TrimSpace(s)
  {
    lead := TrimLeftSplits(s);
    trail := TrimRightSplits(TrimLeft(s));
    var core := TrimSpace(s);
    assert core != "" ==> core[0] == TrimLeft(s)[0];
  }

  lemma OneLetterIsTrimmed(c: char)
    requires !IsSpace(c)
    ensures TrimSpace([c]) == [c]
  {
  }

  lemma {:induction false} TrimLeftAbsorbs(lead: string, s: string)
    requires AllSpace(lead)
    ensures TrimLeft(lead + s) == TrimLeft(s)
  {
    if lead == "" {
      assert lead + s == s;
    } else {
      TrimLeftAbsorbs(lead[1..], s);
      assert (lead + s)[1..] == lead[1..] + s;
    }
  }

  lemma {:induction false} TrimRightAbsorbs(s: string, trail: string)
    requires AllSpace(trail)
    ensures TrimRight(s + trail) == TrimRight(s)
  {
    if trail == "" {
      assert s + trail == s;
    } else {
      var n := |trail| - 1;
      TrimRightAbsorbs(s, trail[..n]);
      assert (s + trail)[..|s + trail| - 1] == s + trail[..n];
    }
  }

  /** White space around a text makes no difference. */
  lemma TrimSpaceAbsorbs(lead: string, s: string, trail: string)
    requires AllSpace(lead) && AllSpace(trail) && Trimmed(s)
    ensures TrimSpace(lead + s + trail) == s
  {
    assert lead + s + trail == lead + (s + trail);
    TrimLeftAbsorbs(lead, s + trail);
    if s == "" {
      TrimLeftAbsorbs(trail, "");
      assert s + trail == trail + "";
    } else {
      TrimRightAbsorbs(s, trail);
    }
  }

  lemma TrimmedStays(s: string)
    requires Trimmed(s)
    ensures TrimSpace(s) == s
  {
  }

  function Lower(s: string): (r: string)
    ensures |r| == |s|
    ensures forall i :: 0 <= i < |s| ==>
              r[i] == if 'A' <= s[i] <= 'Z' then ((s[i] as int) + 32) as char else s[i]
  {
    if s == "" then ""
    else [if 'A' <= s[0] <= 'Z' then ((s[0] as int) + 32) as char else s[0]] + Lower(s[1..])
  }

  lemma LowerKeeps(s: string)
    requires forall i :: 0 <= i < |s| ==> s[i] > 'Z'
    ensures Lower(s) == s
  {
  }

  /** What is neither blank nor control character in ASCII: letters, digits, hyphens and other signs. */
  predicate Visible(c: char) {
    '!' <= c <= '~'
  }

  /** Order ids are trimmed of blanks, tabs and line ends, and of nothing that can be seen. */
  lemma TrimsBlanksOnly(lead: string, s: string, trail: string)
    requires forall c :: c in lead + trail ==> c in {' ', '\t', '\n', '\r'}
    requires forall c :: c in s ==> Visible(c)
    ensures TrimSpace(lead + s + trail) == s
  {
    assert AllSpace(lead) by {
      forall c | c in lead ensures IsSpace(c) {
        assert c in lead + trail;
      }
    }
    assert AllSpace(trail) by {
      forall c | c in trail ensures IsSpace(c) {
        assert c in lead + trail;
      }
    }
    assert s != "" ==> s[0] in s && s[|s| - 1] in s;
    hide TrimSpace, AllSpace;
    TrimSpaceAbsorbs(lead, s, trail);
  }
}
