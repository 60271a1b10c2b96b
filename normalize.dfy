/** The clean-up `generate` applies to the finished buffer before writing it:
    `re.sub('\n\s*\n', '\n', text)`, which replaces every line break that is
    followed, through whitespace only, by another line break with a single
    line break. Written out by hand rather than as a regular-expression engine. */
module Normalize {

  /** `\s` of a Python `str` pattern: the characters `str.isspace` accepts. */
  predicate IsSpace(c: char) {
    var k := c as int;
    k == 0x20 || 0x09 <= k <= 0x0D || 0x1C <= k <= 0x1F || k == 0x85 || k == 0xA0 ||
    k == 0x1680 || 0x2000 <= k <= 0x200A || k == 0x2028 || k == 0x2029 ||
    k == 0x202F || k == 0x205F || k == 0x3000
  }

  /** Whitespace that does not end a line. */
  predicate IsInlineSpace(c: char) {
    IsSpace(c) && c != '\n'
  }

  /** The length of the longest prefix of `t` made of inline whitespace. */
  function InlineSpaces(t: string): (k: nat)
    ensures k <= |t|
    ensures forall i | 0 <= i < k :: IsInlineSpace(t[i])
    ensures k < |t| ==> !IsInlineSpace(t[k])
  {
    if t == [] || !IsInlineSpace(t[0]) then 0 else 1 + InlineSpaces(t[1..])
  }

  /** `t` begins with whitespace that contains a line break: a line break
      just before `t` would start a match of the pattern. */
  predicate BlankAfter(t: string) {
    var k := InlineSpaces(t);
    k < |t| && t[k] == '\n'
  }

  /** No line break is followed, through whitespace only, by another one. */
  predicate NoBlankLines(r: string) {
    forall i | 0 <= i < |r| && r[i] == '\n' :: !BlankAfter(r[i + 1..])
  }

  /** The non-whitespace characters of `s`, in order. */
  function Visible(s: string): string {
    if s == [] then "" else (if IsSpace(s[0]) then "" else [s[0]]) + Visible(s[1..])
  }

  /** The substitution. At a line break whose following whitespace reaches
      another line break, everything up to that second line break is dropped
      and the scan goes on from it, so a whole run ends as its last line break
      followed by the spaces after it; everything else is copied. */
  function Collapse(s: string): (r: string)
    ensures |r| <= |s|
    ensures r == [] <==> s == []
    decreases |s|
  {
    if s == [] then ""
    else if s[0] != '\n' then [s[0]] + Collapse(s[1..])
    else if BlankAfter(s[1..]) then Collapse(s[1 + InlineSpaces(s[1..])..])
    else "\n" + Collapse(s[1..])
  }

  lemma BlankAfterInline(c: char, u: string)
    requires IsInlineSpace(c)
    ensures BlankAfter([c] + u) == BlankAfter(u)
  {
    assert ([c] + u)[1..] == u;
  }

  /** A text whose leading whitespace does not reach a line break keeps that
      property through the collapse. */
  lemma {:induction false} CollapseKeepsLead(t: string)
    requires !BlankAfter(t)
    ensures !BlankAfter(Collapse(t))
    decreases |t|
  {
    if t != [] {
      if IsInlineSpace(t[0]) {
        BlankAfterInline(t[0], t[1..]);
        CollapseKeepsLead(t[1..]);
        BlankAfterInline(t[0], Collapse(t[1..]));
      } else {
        assert t[0] != '\n';
        assert Collapse(t)[0] == t[0];
      }
    }
  }

  /** After the substitution no blank (or whitespace-only) line is left. */
  lemma {:induction false} CollapseNoBlankLines(s: string)
    ensures NoBlankLines(Collapse(s))
    decreases |s|
  {
    if s == [] {
    } else if s[0] != '\n' {
      var u := Collapse(s[1..]);
      CollapseNoBlankLines(s[1..]);
      var r := [s[0]] + u;
      forall i | 0 <= i < |r| && r[i] == '\n'
        ensures !BlankAfter(r[i + 1..])
      {
        assert i >= 1 && r[i] == u[i - 1];
        assert r[i + 1..] == u[i..];
      }
    } else if BlankAfter(s[1..]) {
      CollapseNoBlankLines(s[1 + InlineSpaces(s[1..])..]);
    } else {
      var u := Collapse(s[1..]);
      CollapseNoBlankLines(s[1..]);
      CollapseKeepsLead(s[1..]);
      var r := "\n" + u;
      forall i | 0 <= i < |r| && r[i] == '\n'
        ensures !BlankAfter(r[i + 1..])
      {
        assert r[i + 1..] == u[i..];
        if i >= 1 {
          assert r[i] == u[i - 1];
        }
      }
    }
  }

  lemma {:induction false} VisibleSkipsSpaces(s: string, j: nat)
    requires j <= |s|
    requires forall i | 0 <= i < j :: IsSpace(s[i])
    ensures Visible(s) == Visible(s[j..])
    decreases j
  {
    if j > 0 {
      assert s[1..][j - 1..] == s[j..];
      VisibleSkipsSpaces(s[1..], j - 1);
    }
  }

  /** The substitution removes whitespace only: every other character is
      kept, in order. */
  lemma {:induction false} CollapseKeepsVisible(s: string)
    ensures Visible(Collapse(s)) == Visible(s)
    decreases |s|
  {
    if s == [] {
    } else if s[0] != '\n' {
      CollapseKeepsVisible(s[1..]);
      assert ([s[0]] + Collapse(s[1..]))[1..] == Collapse(s[1..]);
    } else if BlankAfter(s[1..]) {
      var j := 1 + InlineSpaces(s[1..]);
      CollapseKeepsVisible(s[j..]);
      VisibleSkipsSpaces(s, j);
    } else {
      CollapseKeepsVisible(s[1..]);
      assert ("\n" + Collapse(s[1..]))[1..] == Collapse(s[1..]);
    }
  }

  /** A text with no blank line is left exactly as it is. */
  lemma {:induction false} CollapseFixesNormalText(s: string)
    requires NoBlankLines(s)
    ensures Collapse(s) == s
    decreases |s|
  {
    if s != [] {
      var t := s[1..];
      assert NoBlankLines(t) by {
        forall i | 0 <= i < |t| && t[i] == '\n'
          ensures !BlankAfter(t[i + 1..])
        {
          assert s[i + 1] == '\n' && s[i + 2..] == t[i + 1..];
        }
      }
      CollapseFixesNormalText(t);
      if s[0] == '\n' {
        assert s[0 + 1..] == t;
      }
    }
  }

  /** Applying the substitution a second time changes nothing. */
  lemma CollapseIdempotent(s: string)
    ensures Collapse(Collapse(s)) == Collapse(s)
  {
    CollapseNoBlankLines(s);
    CollapseFixesNormalText(Collapse(s));
  }

  /** Keeping only the characters outside `\s` keeps every one of them. */
  lemma {:induction false} VisibleCount(s: string, c: char)
    requires !IsSpace(c)
    ensures multiset(Visible(s))[c] == multiset(s)[c]
    decreases |s|
  {
    if s != [] {
      VisibleCount(s[1..], c);
      assert s == [s[0]] + s[1..];
    }
  }

  /** Characters outside `\s` occur as often after the substitution as before. */
  lemma CollapseCount(s: string, c: char)
    requires !IsSpace(c)
    ensures multiset(Collapse(s))[c] == multiset(s)[c]
  {
    CollapseKeepsVisible(s);
    VisibleCount(s, c);
    VisibleCount(Collapse(s), c);
  }
}
