/**
 * Text folding shared by the country resolver and both news-search handlers:
 * `normalizeName` / `norm` (lower-case, canonical decomposition, removal of
 * diacritics, replacement of every character outside `[a-z0-9\s-]` by a
 * space, collapse of whitespace runs, trim), plus the string splitting and
 * trimming the handlers use.
 */
module Text {
  import opened Common

  /** JavaScript's `\s` class: the characters `trim` strips and `\s+` collapses. */
  predicate IsSpace(c: char)
  {
    || c == ' ' || c == '\t' || c == '\n' || c == '\U{B}' || c == '\U{C}' || c == '\r'
    || c == '\U{A0}' || c == '\U{1680}' || ('\U{2000}' <= c <= '\U{200A}')
    || c == '\U{2028}' || c == '\U{2029}' || c == '\U{202F}' || c == '\U{205F}'
    || c == '\U{3000}' || c == '\U{FEFF}'
  }

  /** The characters `[a-z0-9-]` that the normaliser keeps as they are. */
  predicate IsWordChar(c: char)
  {
    ('a' <= c <= 'z') || ('0' <= c <= '9') || c == '-'
  }

  /** A character a normalised string may contain. */
  predicate IsNormalChar(c: char)
  {
    IsWordChar(c) || c == ' '
  }

  /**
   * Characters with the Unicode Diacritic property that the model knows:
   * the spacing accents of ASCII and Latin-1 and the combining marks that
   * canonical decomposition produces.
   */
  predicate IsDiacritic(c: char)
  {
    || c == '^' || c == '`' || c == '\U{A8}' || c == '\U{AF}' || c == '\U{B4}'
    || c == '\U{B7}' || c == '\U{B8}'
    || ('\U{300}' <= c <= '\U{34E}') || ('\U{350}' <= c <= '\U{357}')
    || ('\U{35D}' <= c <= '\U{362}')
  }

  /** The lower-case base letter of a Latin-1 letter that decomposes canonically. */
  function LatinBase(c: char): Option<char>
  {
    var n := c as int;
    if 0xC0 <= n <= 0xC5 || 0xE0 <= n <= 0xE5 then Some('a')
    else if n == 0xC7 || n == 0xE7 then Some('c')
    else if 0xC8 <= n <= 0xCB || 0xE8 <= n <= 0xEB then Some('e')
    else if 0xCC <= n <= 0xCF || 0xEC <= n <= 0xEF then Some('i')
    else if n == 0xD1 || n == 0xF1 then Some('n')
    else if 0xD2 <= n <= 0xD6 || 0xF2 <= n <= 0xF6 then Some('o')
    else if 0xD9 <= n <= 0xDC || 0xF9 <= n <= 0xFC then Some('u')
    else if n == 0xDD || n == 0xFD || n == 0xFF then Some('y')
    else None
  }

  /**
   * What `toLowerCase`, `normalize("NFD")` and the removal of `\p{Diacritic}`
   * leave of one character.
   */
  function FoldChar(c: char): (r: seq<char>)
    ensures |r| <= 1
    ensures IsNormalChar(c) ==> r == [c]
    ensures 'A' <= c <= 'Z' ==> r == [(c as int + 32) as char]
    ensures IsDiacritic(c) ==> r == []
    ensures LatinBase(c).Some? ==> r == [LatinBase(c).value]
  {
    if 'A' <= c <= 'Z' then [(c as int + 32) as char]
    else if IsDiacritic(c) then []
    else if c == '\U{212A}' then ['k']       // KELVIN SIGN
    else if c == '\U{212B}' then ['a']       // ANGSTROM SIGN
    else if c == '\U{130}' then ['i']        // LATIN CAPITAL LETTER I WITH DOT ABOVE
    else if LatinBase(c).Some? then [LatinBase(c).value]
    else [c]
  }

  /** `toLowerCase().normalize("NFD").replace(/\p{Diacritic}/gu, "")`: never longer, and no ASCII capital is left. */
  function Fold(s: string): (r: string)
    ensures |r| <= |s|
    ensures forall i :: 0 <= i < |r| ==> !('A' <= r[i] <= 'Z')
  {
    if s == [] then [] else FoldChar(s[0]) + Fold(s[1..])
  }

  /** Folding works character by character: it distributes over concatenation. */
  lemma {:induction false} FoldAppend(a: string, b: string)
    ensures Fold(a + b) == Fold(a) + Fold(b)
  {
    if a != [] {
      assert (a + b)[0] == a[0] && (a + b)[1..] == a[1..] + b;
      FoldAppend(a[1..], b);
      assert Fold(a + b) == FoldChar(a[0]) + (Fold(a[1..]) + Fold(b));
      assert Fold(a) == FoldChar(a[0]) + Fold(a[1..]);
      assert FoldChar(a[0]) + (Fold(a[1..]) + Fold(b)) == (FoldChar(a[0]) + Fold(a[1..])) + Fold(b);
    } else {
      assert a + b == b;
    }
  }

  /** `replace(/[^a-z0-9\s-]/g, " ")` on one character. */
  function Blank(c: char): char
  {
    if IsWordChar(c) || IsSpace(c) then c else ' '
  }

  function BlankOut(s: string): (r: string)
    ensures |r| == |s|
    ensures forall i :: 0 <= i < |s| ==>
      (IsWordChar(s[i]) || IsSpace(s[i]) ==> r[i] == s[i]) && (!(IsWordChar(s[i]) || IsSpace(s[i])) ==> r[i] == ' ')
  {
    seq(|s|, i requires 0 <= i < |s| => Blank(s[i]))
  }

  /**
   * `replace(/\s+/g, " ")`: each maximal whitespace run becomes one space,
   * so no other whitespace character is left, and a string without
   * whitespace is unchanged.
   */
  function Collapse(s: string): (r: string)
    ensures |r| <= |s|
    ensures forall i :: 0 <= i < |r| && IsSpace(r[i]) ==> r[i] == ' '
    ensures (forall i :: 0 <= i < |s| ==> !IsSpace(s[i])) ==> r == s
  {
    if s == [] then []
    else if IsSpace(s[0]) then
      if |s| > 1 && IsSpace(s[1]) then Collapse(s[1..]) else [' '] + Collapse(s[1..])
    else [s[0]] + Collapse(s[1..])
  }

  /** A run of whitespace becomes a single space. */
  lemma {:induction false} CollapseSpaces(w: string)
    requires w != [] && forall i :: 0 <= i < |w| ==> IsSpace(w[i])
    ensures Collapse(w) == " "
  {
    if |w| > 1 {
      CollapseSpaces(w[1..]);
    }
  }

  /** What `Collapse` emits for the first character: nothing when a space follows a space. */
  function CollapseHead(s: string): string
    requires s != []
  {
    if IsSpace(s[0]) && |s| > 1 && IsSpace(s[1]) then [] else if IsSpace(s[0]) then " " else [s[0]]
  }

  lemma CollapseCons(s: string)
    requires s != []
    ensures Collapse(s) == CollapseHead(s) + Collapse(s[1..])
  {
  }

  /** A suffix does not change what the first character emits, unless it completes a run. */
  lemma CollapseHeadAppend(x: string, y: string)
    requires x != []
    requires |x| > 1 || y == [] || !IsSpace(x[0]) || !IsSpace(y[0])
    ensures CollapseHead(x + y) == CollapseHead(x)
  {
    var xy := x + y;
    assert xy[0] == x[0];
    if |x| > 1 {
      assert xy[1] == x[1];
    } else if y != [] {
      assert xy[1] == y[0];
    }
  }

  /** Collapsing works piecewise when the cut does not fall inside a whitespace run. */
  lemma {:induction false} CollapseAppend(x: string, y: string)
    requires x == [] || y == [] || !IsSpace(x[|x| - 1]) || !IsSpace(y[0])
    ensures Collapse(x + y) == Collapse(x) + Collapse(y)
  {
    if x == [] {
      assert x + y == y;
    } else {
      if |x| > 1 {
        CollapseAppend(x[1..], y);
      } else {
        assert x[1..] + y == y;
      }
      CollapseAppendStep(x, y);
    }
  }

  /** One step of `CollapseAppend`: from the tail of `x` to `x`. */
  lemma {:induction false} CollapseAppendStep(x: string, y: string)
    requires x != []
    requires |x| > 1 || y == [] || !IsSpace(x[0]) || !IsSpace(y[0])
    requires Collapse(x[1..] + y) == Collapse(x[1..]) + Collapse(y)
    ensures Collapse(x + y) == Collapse(x) + Collapse(y)
  {
    CollapseConsAppend(x, y);
    CollapseCons(x);
    AppendAssoc(CollapseHead(x), Collapse(x[1..]), Collapse(y));
  }

  /** Unfolding `Collapse` once on `x + y`, when `y` cannot complete a run at the head of `x`. */
  lemma {:induction false} CollapseConsAppend(x: string, y: string)
    requires x != []
    requires |x| > 1 || y == [] || !IsSpace(x[0]) || !IsSpace(y[0])
    ensures Collapse(x + y) == CollapseHead(x) + Collapse(x[1..] + y)
  {
    var xy := x + y;
    assert xy[1..] == x[1..] + y;
    CollapseHeadAppend(x, y);
    CollapseCons(xy);
  }

  /**
   * Each maximal whitespace run `w` becomes exactly one space, and the text
   * on either side is collapsed on its own. With `Collapse(s) == s` for a
   * string without whitespace, this fixes `Collapse` on every string.
   */
  lemma CollapseRun(a: string, w: string, b: string)
    requires a == [] || !IsSpace(a[|a| - 1])
    requires w != [] && forall i :: 0 <= i < |w| ==> IsSpace(w[i])
    requires b == [] || !IsSpace(b[0])
    ensures Collapse(a + w + b) == Collapse(a) + " " + Collapse(b)
  {
    CollapseSpaces(w);
    CollapseAppend(w, b);
    CollapseAppend(a, w + b);
    assert a + w + b == a + (w + b);
  }

  function TrimStart(s: string): (r: string)
    ensures |r| <= |s| && r == s[|s| - |r|..]
    ensures r != [] ==> !IsSpace(r[0])
    ensures forall i :: 0 <= i < |s| - |r| ==> IsSpace(s[i])
  {
    if s != [] && IsSpace(s[0]) then TrimStart(s[1..]) else s
  }

  function TrimEnd(s: string): (r: string)
    ensures |r| <= |s| && r == s[..|r|]
    ensures r != [] ==> !IsSpace(r[|r| - 1])
    ensures forall i :: |r| <= i < |s| ==> IsSpace(s[i])
  {
    if s != [] && IsSpace(s[|s| - 1]) then TrimEnd(s[..|s| - 1]) else s
  }

  /** `String.prototype.trim`. */
  function Trim(s: string): string
  {
    TrimEnd(TrimStart(s))
  }

  /** No two adjacent spaces (stated over index pairs, so that no instance creates a new index term). */
  predicate NoDoubleSpace(s: string)
  {
    forall i, j :: 0 <= i < |s| && 0 <= j < |s| && j == i + 1 ==> !(s[i] == ' ' && s[j] == ' ')
  }

  /** The shape every normalised string has. */
  predicate IsNormalized(s: string)
  {
    && (forall i :: 0 <= i < |s| ==> IsNormalChar(s[i]))
    && (s != [] ==> s[0] != ' ' && s[|s| - 1] != ' ')
    && NoDoubleSpace(s)
  }

  /* Characters that survive blanking are word characters or whitespace. */
  predicate IsBlanked(s: string)
  {
    forall i :: 0 <= i < |s| ==> IsWordChar(s[i]) || IsSpace(s[i])
  }

  /* What collapsing produces from a blanked string: no whitespace but single spaces. */
  predicate IsCollapsed(s: string)
  {
    && (forall i :: 0 <= i < |s| ==> IsNormalChar(s[i]))
    && NoDoubleSpace(s)
  }

  lemma {:induction false} CollapseShape(s: string)
    requires IsBlanked(s)
    ensures IsCollapsed(Collapse(s))
    ensures Collapse(s) != [] && s != [] ==> (Collapse(s)[0] == ' ' <==> IsSpace(s[0]))
    decreases |s|
  {
    if s != [] {
      CollapseShape(s[1..]);
      var rest := Collapse(s[1..]);
      if IsSpace(s[0]) && |s| > 1 && IsSpace(s[1]) {
      } else if IsSpace(s[0]) {
        assert rest != [] ==> !IsSpace(s[1]) && rest[0] != ' ';
        var r := [' '] + rest;
        assert forall i :: 1 <= i < |r| ==> r[i] == rest[i - 1];
      } else {
        var r := [s[0]] + rest;
        assert forall i :: 1 <= i < |r| ==> r[i] == rest[i - 1];
      }
    }
  }

  lemma SliceCollapsed(s: string, a: nat, b: nat)
    requires IsCollapsed(s) && a <= b <= |s|
    ensures IsCollapsed(s[a..b])
  {
    var t := s[a..b];
    forall i, j | 0 <= i < j < |t| && j == i + 1 ensures !(t[i] == ' ' && t[j] == ' ') {
      assert t[i] == s[a + i] && t[j] == s[a + j];
    }
  }

  lemma TrimKeepsCollapsed(s: string)
    requires IsCollapsed(s)
    ensures IsNormalized(Trim(s))
  {
    var t := TrimStart(s);
    SliceCollapsed(s, |s| - |t|, |s|);
    var u := TrimEnd(t);
    SliceCollapsed(t, 0, |u|);
  }

  /** `normalizeName` / `norm` applied to a string (`value || ""` turns absence into ""). */
  function Normalize(s: string): (r: string)
    ensures IsNormalized(r)
    ensures s == "" ==> r == ""
  {
    var b := BlankOut(Fold(s));
    CollapseShape(b);
    TrimKeepsCollapsed(Collapse(b));
    Trim(Collapse(b))
  }

  lemma {:induction false} FoldFixed(s: string)
    requires forall i :: 0 <= i < |s| ==> IsNormalChar(s[i])
    ensures Fold(s) == s
  {
    if s != [] {
      FoldFixed(s[1..]);
      assert s == [s[0]] + s[1..];
    }
  }

  lemma {:induction false} CollapseFixed(s: string)
    requires IsCollapsed(s)
    ensures Collapse(s) == s
  {
    if s != [] {
      assert IsCollapsed(s[1..]) by {
        forall i, j | 0 <= i < j < |s[1..]| && j == i + 1 ensures !(s[1..][i] == ' ' && s[1..][j] == ' ') {
          assert s[1..][i] == s[i + 1] && s[1..][j] == s[j + 1];
        }
      }
      CollapseFixed(s[1..]);
      assert s == [s[0]] + s[1..];
      if IsSpace(s[0]) && |s| > 1 {
        assert s[0] == ' ' && s[1] != ' ';
        assert !IsSpace(s[1]);
      }
    }
  }

  /** A normalised string is a fixed point of the normaliser. */
  lemma NormalizedFixed(s: string)
    requires IsNormalized(s)
    ensures Normalize(s) == s
  {
    FoldFixed(s);
    BlankOutFixed(s);
    CollapseFixed(s);
    TrimFixed(s);
    assert Normalize(s) == Trim(Collapse(BlankOut(Fold(s))));
  }

  lemma BlankOutFixed(s: string)
    requires forall i :: 0 <= i < |s| ==> IsNormalChar(s[i])
    ensures BlankOut(s) == s
  {
    assert forall i :: 0 <= i < |s| ==> BlankOut(s)[i] == s[i];
  }

  lemma TrimFixed(s: string)
    requires IsNormalized(s)
    ensures Trim(s) == s
  {
    if s != [] {
      assert IsNormalChar(s[0]) && IsNormalChar(s[|s| - 1]);
      assert !IsSpace(s[0]) && !IsSpace(s[|s| - 1]);
      assert TrimStart(s) == s;
    }
  }

  /** Normalising twice gives what normalising once gives. */
  lemma NormalizeIdempotent(s: string)
    ensures Normalize(Normalize(s)) == Normalize(s)
  {
    NormalizedFixed(Normalize(s));
  }

  /** A normalised string never holds `c` unless it is one of `[a-z0-9 -]`. */
  lemma NormalizedExcludes(s: string, c: char)
    requires !IsNormalChar(c)
    ensures c !in Normalize(s)
  {
  }

  /** Lower-cases ASCII capitals and leaves every other character alone. */
  function LowerAscii(s: string): (r: string)
    ensures |r| == |s|
  {
    seq(|s|, i requires 0 <= i < |s| => if 'A' <= s[i] <= 'Z' then (s[i] as int + 32) as char else s[i])
  }

  /** A string of ASCII letters, digits, `-` and single inner spaces, such as every canonical country name. */
  predicate IsPlainText(s: string)
  {
    && (forall i :: 0 <= i < |s| ==> IsNormalChar(s[i]) || 'A' <= s[i] <= 'Z')
    && (s != [] ==> s[0] != ' ' && s[|s| - 1] != ' ')
    && NoDoubleSpace(s)
  }

  lemma {:induction false} FoldPlain(s: string)
    requires forall i :: 0 <= i < |s| ==> IsNormalChar(s[i]) || 'A' <= s[i] <= 'Z'
    ensures Fold(s) == LowerAscii(s)
  {
    if s != [] {
      FoldPlain(s[1..]);
      assert LowerAscii(s) == [LowerAscii(s)[0]] + LowerAscii(s[1..]);
    }
  }

  /** Plain text normalises to its ASCII lower case. */
  lemma NormalizePlain(s: string)
    requires IsPlainText(s)
    ensures Normalize(s) == LowerAscii(s)
  {
    var l := LowerAscii(s);
    FoldPlain(s);
    assert IsNormalized(l);
    FoldFixed(l);
    NormalizedFixed(l);
  }

  /** `Normalize` through its stages: fold, blank, collapse, then a trim that finds nothing to strip. */
  lemma NormalizeStages(s: string, f: string, b: string, c: string)
    requires Fold(s) == f && BlankOut(f) == b && Collapse(b) == c && IsNormalized(c)
    ensures Normalize(s) == c
  {
    TrimFixed(c);
  }

  /** ASCII punctuation and whitespace, which folding keeps and blanking turns into whitespace. */
  predicate IsSeparator(c: char)
  {
    IsSpace(c) || (c < 128 as char && !IsWordChar(c) && !('A' <= c <= 'Z') && !IsDiacritic(c))
  }

  lemma FoldCharSeparator(c: char)
    requires IsSeparator(c)
    ensures FoldChar(c) == [c]
  {
  }

  lemma {:induction false} FoldSeparators(p: string)
    requires forall i :: 0 <= i < |p| ==> IsSeparator(p[i])
    ensures Fold(p) == p
  {
    if p != [] {
      FoldSeparators(p[1..]);
      FoldCharSeparator(p[0]);
      assert Fold(p) == FoldChar(p[0]) + Fold(p[1..]);
      assert p == [p[0]] + p[1..];
    }
  }

  /** Blanking works character by character. */
  lemma BlankOutAppend(x: string, y: string)
    ensures BlankOut(x + y) == BlankOut(x) + BlankOut(y)
  {
    assert forall i :: 0 <= i < |x + y| ==> BlankOut(x + y)[i] == (BlankOut(x) + BlankOut(y))[i];
  }

  /** Lower-casing plain text gives a normalised string. */
  lemma LowerPlain(s: string)
    requires IsPlainText(s)
    ensures IsNormalized(LowerAscii(s))
  {
    var l := LowerAscii(s);
    forall i, j | 0 <= i < |l| && 0 <= j < |l| && j == i + 1 ensures !(l[i] == ' ' && l[j] == ' ') {
      assert l[i] == ' ' ==> s[i] == ' ';
      assert l[j] == ' ' ==> s[j] == ' ';
    }
  }

  /** Two normalised non-empty strings joined by one space form a normalised string. */
  lemma JoinNormalized(x: string, y: string)
    requires IsNormalized(x) && IsNormalized(y) && x != [] && y != []
    ensures IsNormalized(x + " " + y)
  {
    var r := x + " " + y;
    assert forall i :: 0 <= i < |x| ==> r[i] == x[i];
    assert r[|x|] == ' ';
    assert forall i :: |x| < i < |r| ==> r[i] == y[i - |x| - 1];
  }

  /** Folding separators followed by a plain word keeps the separators and lowers the word. */
  lemma {:induction false} FoldSeparatorsThen(p: string, b: string)
    requires IsPlainText(b)
    requires forall i :: 0 <= i < |p| ==> IsSeparator(p[i])
    ensures Fold(p + b) == p + LowerAscii(b)
  {
    FoldAppend(p, b);
    FoldSeparators(p);
    FoldPlain(b);
  }

  /** Folding two plain words around separators lowers the words and keeps the separators. */
  lemma {:induction false} JoinFold(a: string, p: string, b: string)
    requires IsPlainText(a) && IsPlainText(b)
    requires forall i :: 0 <= i < |p| ==> IsSeparator(p[i])
    ensures Fold(a + p + b) == LowerAscii(a) + (p + LowerAscii(b))
  {
    var pb := p + b;
    assert a + p + b == a + pb;
    FoldAppend(a, pb);
    FoldPlain(a);
    FoldSeparatorsThen(p, b);
  }

  /** Blanking keeps normalised words and turns the separators between them into whitespace. */
  lemma {:induction false} JoinBlank(x: string, p: string, y: string)
    requires IsNormalized(x) && IsNormalized(y)
    requires forall i :: 0 <= i < |p| ==> IsSeparator(p[i])
    ensures BlankOut(x + (p + y)) == x + BlankOut(p) + y
    ensures forall i :: 0 <= i < |p| ==> IsSpace(BlankOut(p)[i])
  {
    BlankOutAppend(x, p + y);
    BlankOutAppend(p, y);
    BlankOutFixed(x);
    BlankOutFixed(y);
    assert x + (BlankOut(p) + y) == x + BlankOut(p) + y;
  }

  /**
   * Any run of punctuation and whitespace between two plain words becomes
   * exactly one space, and nothing else changes but the case: for example
   * "Korea,  Republic of" normalises to "korea republic of".
   */
  lemma {:induction false} NormalizeJoin(a: string, p: string, b: string)
    requires IsPlainText(a) && a != [] && IsPlainText(b) && b != []
    requires p != [] && forall i :: 0 <= i < |p| ==> IsSeparator(p[i])
    ensures Normalize(a + p + b) == LowerAscii(a) + " " + LowerAscii(b)
  {
    var la, lb := LowerAscii(a), LowerAscii(b);
    JoinFold(a, p, b);
    LowerPlain(a);
    LowerPlain(b);
    JoinBlank(la, p, lb);
    var w := BlankOut(p);
    assert la[|la| - 1] != ' ' && IsNormalChar(la[|la| - 1]);
    assert lb[0] != ' ' && IsNormalChar(lb[0]);
    CollapseRun(la, w, lb);
    CollapseFixed(la);
    CollapseFixed(lb);
    JoinNormalized(la, lb);
    NormalizeStages(a + p + b, la + (p + lb), la + w + lb, la + " " + lb);
  }

  /** `Fold` of a string with one character singled out. */
  lemma {:induction false} FoldAround(a: string, c: char, b: string)
    ensures Fold(a + [c] + b) == Fold(a) + FoldChar(c) + Fold(b)
  {
    var cb := [c] + b;
    assert a + [c] + b == a + cb;
    FoldAppend(a, cb);
    FoldCons(c, b);
    AppendAssoc(Fold(a), FoldChar(c), Fold(b));
  }

  /** `Fold` of a string given by its head. */
  lemma FoldCons(c: char, b: string)
    ensures Fold([c] + b) == FoldChar(c) + Fold(b)
  {
    assert ([c] + b)[0] == c && ([c] + b)[1..] == b;
  }

  /** An accented Latin-1 letter normalises as its base letter does: "C\U{F4}te" as "Cote". */
  lemma NormalizeAccent(a: string, c: char, b: string)
    requires LatinBase(c).Some?
    ensures Normalize(a + [c] + b) == Normalize(a + [LatinBase(c).value] + b)
  {
    var base := LatinBase(c).value;
    FoldAround(a, c, b);
    FoldAround(a, base, b);
    assert FoldChar(c) == [base];
    assert IsNormalChar(base);
    NormalizeSameFold(a + [c] + b, a + [base] + b);
  }

  /** `Normalize` depends on its input only through `Fold`. */
  lemma NormalizeSameFold(x: string, y: string)
    requires Fold(x) == Fold(y)
    ensures Normalize(x) == Normalize(y)
  {
  }

  /** A combining mark or spacing accent is deleted before anything else happens. */
  lemma NormalizeDiacritic(a: string, d: char, b: string)
    requires IsDiacritic(d)
    ensures Normalize(a + [d] + b) == Normalize(a + b)
  {
    FoldAround(a, d, b);
    FoldAppend(a, b);
    assert FoldChar(d) == [];
    assert Fold(a) + FoldChar(d) + Fold(b) == Fold(a) + Fold(b);
    NormalizeSameFold(a + [d] + b, a + b);
  }

  /** The words around the accent in "C\U{F4}te" are plain, and "Cote" lowers to "cote". */
  lemma AccentExampleWords(a: string, b: string)
    requires a == "C" && b == "te"
    ensures IsPlainText(a + ['o'] + b) && LowerAscii(a + ['o'] + b) == "cote"
  {
    assert a + ['o'] + b == "Cote";
  }

  /** "C\U{F4}te" normalises to "cote"; the words are parameters so that only the lemmas above evaluate them. */
  lemma {:induction false} AccentExample(a: string, b: string)
    requires a == "C" && b == "te"
    ensures Normalize(a + ['\U{F4}'] + b) == "cote"
  {
    assert LatinBase('\U{F4}') == Some('o');
    NormalizeAccent(a, '\U{F4}', b);
    AccentExampleWords(a, b);
    NormalizePlain(a + ['o'] + b);
  }

  /** The pieces of "Korea,  Republic of" meet the requirements of `NormalizeJoin`. */
  lemma JoinExampleShape(a: string, p: string, b: string)
    requires a == "Korea" && p == ",  " && b == "Republic of"
    ensures IsPlainText(a) && a != [] && IsPlainText(b) && b != []
    ensures p != [] && forall i :: 0 <= i < |p| ==> IsSeparator(p[i])
  {
  }

  lemma JoinExampleWords(a: string, b: string)
    requires a == "Korea" && b == "Republic of"
    ensures LowerAscii(a) + " " + LowerAscii(b) == "korea republic of"
  {
    assert LowerAscii(a) == "korea";
    assert LowerAscii(b) == "republic of";
  }

  /** "Korea,  Republic of" normalises to "korea republic of". */
  lemma {:induction false} JoinExample(a: string, p: string, b: string)
    requires a == "Korea" && p == ",  " && b == "Republic of"
    ensures Normalize(a + p + b) == "korea republic of"
  {
    JoinExampleShape(a, p, b);
    NormalizeJoin(a, p, b);
    JoinExampleWords(a, b);
  }

  /** `String.prototype.split(sep)` with a one-character separator. */
  function Split(s: string, sep: char): (r: seq<string>)
    ensures |r| >= 1
  {
    if s == [] then [""]
    else
      var rest := Split(s[1..], sep);
      if s[0] == sep then [""] + rest else [[s[0]] + rest[0]] + rest[1..]
  }

  /** `Array.prototype.join(sep)`. */
  function Join(parts: seq<string>, sep: string): string
  {
    if parts == [] then ""
    else if |parts| == 1 then parts[0]
    else parts[0] + sep + Join(parts[1..], sep)
  }

  /** Splitting loses nothing: joining the pieces again gives back the input, and no piece holds the separator. */
  lemma SplitJoin(s: string, sep: char)
    ensures Join(Split(s, sep), [sep]) == s
    ensures forall p :: p in Split(s, sep) ==> sep !in p
  {
    SplitRejoin(s, sep);
    SplitClean(s, sep);
  }

  /** `Join` of a list given by its head. */
  lemma JoinCons(x: string, ys: seq<string>, sep: string)
    ensures Join([x] + ys, sep) == if ys == [] then x else x + sep + Join(ys, sep)
  {
    assert ([x] + ys)[1..] == ys;
  }

  lemma {:induction false} SplitRejoin(s: string, sep: char)
    ensures Join(Split(s, sep), [sep]) == s
  {
    if s != [] {
      SplitRejoin(s[1..], sep);
      var rest := Split(s[1..], sep);
      assert s == [s[0]] + s[1..];
      if s[0] == sep {
        JoinCons("", rest, [sep]);
      } else {
        var tail := rest[1..];
        assert rest == [rest[0]] + tail;
        JoinCons(rest[0], tail, [sep]);
        JoinCons([s[0]] + rest[0], tail, [sep]);
      }
    }
  }

  lemma {:induction false} SplitClean(s: string, sep: char)
    ensures forall p :: p in Split(s, sep) ==> sep !in p
  {
    if s != [] {
      SplitClean(s[1..], sep);
      var rest := Split(s[1..], sep);
      if s[0] != sep {
        var r := [[s[0]] + rest[0]] + rest[1..];
        forall p | p in r ensures sep !in p {
          if p == [s[0]] + rest[0] {
            assert rest[0] in rest;
          } else {
            assert p in rest;
          }
        }
      }
    }
  }

  /** The first piece of a split is non-empty when the string does not start with the separator. */
  lemma SplitHead(s: string, sep: char)
    requires s != [] && s[0] != sep
    ensures Split(s, sep)[0] == [s[0]] + Split(s[1..], sep)[0]
  {
  }

  /** Upper-cases an ASCII letter; also the two non-ASCII letters (U+0131, U+017F) whose upper case is ASCII. */
  function UpperChar(c: char): char
  {
    if 'a' <= c <= 'z' then (c as int - 32) as char
    else if c == '\U{131}' then 'I'
    else if c == '\U{17F}' then 'S'
    else c
  }

  /**
   * `toUpperCase`, one character at a time: lower-case ASCII letters become
   * capitals and other ASCII characters are kept. JavaScript may lengthen a
   * string (a sharp s becomes two letters); this model does not.
   */
  function Upper(s: string): (r: string)
    ensures |r| == |s|
    ensures forall i :: 0 <= i < |s| && 'a' <= s[i] <= 'z' ==> 'A' <= r[i] <= 'Z' && r[i] as int + 32 == s[i] as int
    ensures forall i :: 0 <= i < |s| && s[i] < 128 as char && !('a' <= s[i] <= 'z') ==> r[i] == s[i]
    ensures forall i :: 0 <= i < |r| ==> !('a' <= r[i] <= 'z')
  {
    seq(|s|, i requires 0 <= i < |s| => UpperChar(s[i]))
  }
}
