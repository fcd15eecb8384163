/** bigo_gen/lean2py/parser.py: finding `@[export sym] ... def name` declarations in Lean
    source. The regular expression of `parse_exports` is given twice: `IsParse` states the
    language it accepts, piece by piece, and `MatchAt` is a scanner that decides it at one
    position. `FindIter` is `finditer`'s left-to-right, non-overlapping search and
    `ParseExports` the loop that turns its matches into `Export` records. */
module ExportParser {
  import opened Failures

  /** The `Export` record: the C symbol named by the attribute and the Lean definition's name. */
  datatype Export = Export(cSymbol: string, leanName: string)

  // ---------------------------------------------------------------------------------------
  // Character classes and runs

  /** Python's `\s` on str patterns: the characters for which `str.isspace()` holds. */
  predicate IsSpace(c: char)
  {
    var n := c as int;
    (0x09 <= n <= 0x0D) || (0x1C <= n <= 0x20) || n == 0x85 || n == 0xA0 || n == 0x1680
    || (0x2000 <= n <= 0x200A) || n == 0x2028 || n == 0x2029 || n == 0x202F || n == 0x205F
    || n == 0x3000
  }

  /** `\w`, restricted to ASCII letters, digits and the underscore. */
  predicate IsWordChar(c: char)
  {
    ('a' <= c <= 'z') || ('A' <= c <= 'Z') || ('0' <= c <= '9') || c == '_'
  }

  /** s[i..j] is all whitespace. */
  predicate AllSpace(s: string, i: nat, j: nat)
  {
    i <= j <= |s| && forall k | i <= k < j :: IsSpace(s[k])
  }

  /** s[i..j] is all word characters. */
  predicate AllWord(s: string, i: nat, j: nat)
  {
    i <= j <= |s| && forall k | i <= k < j :: IsWordChar(s[k])
  }

  /** s[i..j] does not contain `c`. */
  predicate NoChar(s: string, i: nat, j: nat, c: char)
  {
    i <= j <= |s| && forall k | i <= k < j :: s[k] != c
  }

  /** The literal `w` occurs at position `i`. */
  predicate LitAt(s: string, i: nat, w: string)
  {
    i + |w| <= |s| && s[i..i + |w|] == w
  }

  /** The end of the whitespace run starting at `i`. */
  function SkipSpace(s: string, i: nat): (r: nat)
    requires i <= |s|
    ensures AllSpace(s, i, r) && (r == |s| || !IsSpace(s[r]))
    decreases |s| - i
  {
    if i == |s| || !IsSpace(s[i]) then i else SkipSpace(s, i + 1)
  }

  /** The end of the word-character run starting at `i`. */
  function SkipWord(s: string, i: nat): (r: nat)
    requires i <= |s|
    ensures AllWord(s, i, r) && (r == |s| || !IsWordChar(s[r]))
    decreases |s| - i
  {
    if i == |s| || !IsWordChar(s[i]) then i else SkipWord(s, i + 1)
  }

  /** The first occurrence of `c` at or after `i`, or `|s|` when there is none. */
  function FindChar(s: string, i: nat, c: char): (r: nat)
    requires i <= |s|
    ensures NoChar(s, i, r, c) && (r == |s| || s[r] == c)
    decreases |s| - i
  {
    if i == |s| || s[i] == c then i else FindChar(s, i + 1, c)
  }

  /** A run ending before a non-space is the run SkipSpace finds. */
  lemma SpaceRunEnd(s: string, i: nat, j: nat)
    requires AllSpace(s, i, j) && j < |s| && !IsSpace(s[j])
    ensures SkipSpace(s, i) == j
  {
  }

  /** A run ending before a non-word character or at the end is the run SkipWord finds. */
  lemma WordRunEnd(s: string, i: nat, j: nat)
    requires AllWord(s, i, j) && (j == |s| || !IsWordChar(s[j]))
    ensures SkipWord(s, i) == j
  {
  }

  /** An occurrence of `c` with none before it is the one FindChar finds. */
  lemma FirstCharAt(s: string, i: nat, j: nat, c: char)
    requires NoChar(s, i, j, c) && j < |s| && s[j] == c
    ensures FindChar(s, i, c) == j
  {
  }

  // ---------------------------------------------------------------------------------------
  // The attribute groups between `]` and `def`

  /** s[i..j] is in the language of `\s*(?:\s*\[[^\]]*\])*\s*`: whitespace and bracketed
      groups in any order, a group running from `[` to the first `]` after it. */
  predicate Filler(s: string, i: nat, j: nat)
    decreases j - i
  {
    i <= j <= |s| &&
    (i == j
     || (IsSpace(s[i]) && Filler(s, i + 1, j))
     || (s[i] == '[' && FindChar(s, i + 1, ']') < j && Filler(s, FindChar(s, i + 1, ']') + 1, j)))
  }

  /** Consumes whitespace and complete bracketed groups from `i`; stops at any other character
      or at a `[` that is never closed. */
  function SkipFiller(s: string, i: nat): (r: nat)
    requires i <= |s|
    ensures Filler(s, i, r)
    ensures r == |s| || (!IsSpace(s[r]) && (s[r] != '[' || FindChar(s, r + 1, ']') == |s|))
    decreases |s| - i
  {
    if i == |s| then i
    else if IsSpace(s[i]) then SkipFiller(s, i + 1)
    else if s[i] == '[' then
      var k := FindChar(s, i + 1, ']');
      if k == |s| then i
      else SkipFiller(s, k + 1)
    else i
  }

  /** A filler that ends before a character that is neither whitespace nor `[` ends where
      SkipFiller stops. */
  lemma {:induction false} FillerEnd(s: string, i: nat, j: nat)
    requires Filler(s, i, j) && j < |s| && !IsSpace(s[j]) && s[j] != '['
    ensures SkipFiller(s, i) == j
    decreases j - i
  {
    if i == j {
    } else if IsSpace(s[i]) && Filler(s, i + 1, j) {
      FillerEnd(s, i + 1, j);
    } else {
      FillerEnd(s, FindChar(s, i + 1, ']') + 1, j);
    }
  }

  // ---------------------------------------------------------------------------------------
  // One match

  /** The positions of one match: `@` at `at`, `[` at `lb`, `export` at `kw`, the symbol
      alternative at `alt` (quoted or not), the symbol text s[symStart..symEnd], `]` at `rb`,
      `def` at `defAt` and the definition name s[nameStart..nameEnd], where the match ends. */
  datatype Parse = Parse(at: nat, lb: nat, kw: nat, alt: nat, quoted: bool, symStart: nat,
                         symEnd: nat, rb: nat, defAt: nat, nameStart: nat, nameEnd: nat)

  /** Where the symbol alternative ends: after the closing quote, or after the word run. */
  function AfterSymbol(t: Parse): nat
  {
    if t.quoted then t.symEnd + 1 else t.symEnd
  }

  /** `@`, whitespace, `[`, whitespace, `export` and at least one whitespace character, with
      the symbol alternative starting at `alt`. */
  predicate OpenAt(s: string, at: nat, lb: nat, kw: nat, alt: nat)
  {
    at < |s| && s[at] == '@'
    && AllSpace(s, at + 1, lb) && lb < |s| && s[lb] == '['
    && AllSpace(s, lb + 1, kw) && LitAt(s, kw, "export")
    && kw + 6 < alt && AllSpace(s, kw + 6, alt) && alt < |s|
  }

  /** `"([^"]+)"` when `quoted`, `(\w+)` otherwise, starting at `alt`; the symbol text is
      s[symStart..symEnd]. */
  predicate SymbolAt(s: string, alt: nat, quoted: bool, symStart: nat, symEnd: nat)
  {
    alt < |s| &&
    if quoted then
      s[alt] == '"' && symStart == alt + 1 && symStart < symEnd < |s|
      && NoChar(s, symStart, symEnd, '"') && s[symEnd] == '"'
    else
      symStart == alt && symStart < symEnd && AllWord(s, symStart, symEnd)
  }

  /** From the end of the symbol: whitespace, `]`, the filler, `def`, at least one whitespace
      character and the name s[nameStart..nameEnd], which takes every word character there is. */
  predicate TailAt(s: string, after: nat, rb: nat, defAt: nat, nameStart: nat, nameEnd: nat)
  {
    AllSpace(s, after, rb) && rb < |s| && s[rb] == ']'
    && Filler(s, rb + 1, defAt) && LitAt(s, defAt, "def")
    && defAt + 3 < nameStart && AllSpace(s, defAt + 3, nameStart)
    && nameStart < nameEnd && AllWord(s, nameStart, nameEnd)
    && (nameEnd == |s| || !IsWordChar(s[nameEnd]))
  }

  /** `t` is a match of the pattern in `s`: each piece of the regular expression in turn, with
      the final `\w+` taking as many characters as it can, as a greedy quantifier at the end of
      a pattern does. */
  predicate IsParse(s: string, t: Parse)
  {
    OpenAt(s, t.at, t.lb, t.kw, t.alt)
    && SymbolAt(s, t.alt, t.quoted, t.symStart, t.symEnd)
    && TailAt(s, AfterSymbol(t), t.rb, t.defAt, t.nameStart, t.nameEnd)
  }

  /** The opening pieces tried at `p`: the positions of `[`, `export` and the alternative. */
  function MatchOpen(s: string, p: nat): (r: Option<(nat, nat, nat)>)
    ensures r.Some? ==> OpenAt(s, p, r.value.0, r.value.1, r.value.2)
  {
    if p >= |s| || s[p] != '@' then None
    else
      var lb := SkipSpace(s, p + 1);
      if lb == |s| || s[lb] != '[' then None
      else
        var kw := SkipSpace(s, lb + 1);
        if !LitAt(s, kw, "export") then None
        else
          var alt := SkipSpace(s, kw + 6);
          if alt == kw + 6 || alt == |s| then None
          else Some((lb, kw, alt))
  }

  /** The symbol alternative tried at `alt`: the first character decides between them. */
  function MatchSymbol(s: string, alt: nat): (r: Option<(bool, nat, nat)>)
    requires alt < |s|
    ensures r.Some? ==> SymbolAt(s, alt, r.value.0, r.value.1, r.value.2)
  {
    if s[alt] == '"' then
      var symEnd := FindChar(s, alt + 1, '"');
      if symEnd == alt + 1 || symEnd == |s| then None else Some((true, alt + 1, symEnd))
    else
      var symEnd := SkipWord(s, alt);
      if symEnd == alt then None else Some((false, alt, symEnd))
  }

  /** The pieces after the symbol tried at `after`. */
  function MatchTail(s: string, after: nat): (r: Option<(nat, nat, nat, nat)>)
    requires after <= |s|
    ensures r.Some? ==> TailAt(s, after, r.value.0, r.value.1, r.value.2, r.value.3)
  {
    var rb := SkipSpace(s, after);
    if rb == |s| || s[rb] != ']' then None
    else
      var defAt := SkipFiller(s, rb + 1);
      if !LitAt(s, defAt, "def") then None
      else
        var nameStart := SkipSpace(s, defAt + 3);
        if nameStart == defAt + 3 then None
        else
          var nameEnd := SkipWord(s, nameStart);
          if nameEnd == nameStart then None
          else Some((rb, defAt, nameStart, nameEnd))
  }

  /** The pattern tried at position `p`, every piece determined by the one before. */
  function MatchAt(s: string, p: nat): (r: Option<Parse>)
    ensures r.Some? ==> IsParse(s, r.value) && r.value.at == p
  {
    var o := MatchOpen(s, p);
    if o.None? then None
    else
      var sym := MatchSymbol(s, o.value.2);
      if sym.None? then None
      else
        var after := if sym.value.0 then sym.value.2 + 1 else sym.value.2;
        var tail := MatchTail(s, after);
        if tail.None? then None
        else
          Some(Parse(p, o.value.0, o.value.1, o.value.2, sym.value.0, sym.value.1, sym.value.2,
                     tail.value.0, tail.value.1, tail.value.2, tail.value.3))
  }

  lemma OpenComplete(s: string, at: nat, lb: nat, kw: nat, alt: nat)
    requires OpenAt(s, at, lb, kw, alt) && !IsSpace(s[alt])
    ensures MatchOpen(s, at) == Some((lb, kw, alt))
  {
    SpaceRunEnd(s, at + 1, lb);
    assert s[kw] == 'e' by {
      assert s[kw..kw + 6][0] == 'e';
    }
    SpaceRunEnd(s, lb + 1, kw);
    SpaceRunEnd(s, kw + 6, alt);
  }

  lemma SymbolComplete(s: string, alt: nat, quoted: bool, symStart: nat, symEnd: nat)
    requires SymbolAt(s, alt, quoted, symStart, symEnd)
    requires quoted || symEnd == |s| || !IsWordChar(s[symEnd])
    ensures MatchSymbol(s, alt) == Some((quoted, symStart, symEnd))
  {
    if quoted {
      FirstCharAt(s, symStart, symEnd, '"');
    } else {
      WordRunEnd(s, symStart, symEnd);
    }
  }

  lemma TailComplete(s: string, after: nat, rb: nat, defAt: nat, nameStart: nat, nameEnd: nat)
    requires TailAt(s, after, rb, defAt, nameStart, nameEnd)
    ensures MatchTail(s, after) == Some((rb, defAt, nameStart, nameEnd))
  {
    SpaceRunEnd(s, after, rb);
    assert s[defAt] == 'd' by {
      assert s[defAt..defAt + 3][0] == 'd';
    }
    FillerEnd(s, rb + 1, defAt);
    SpaceRunEnd(s, defAt + 3, nameStart);
    WordRunEnd(s, nameStart, nameEnd);
  }

  /** MatchAt succeeds with `t` when each of its stages finds `t`'s positions. */
  lemma StagesAssemble(s: string, t: Parse)
    requires t.alt < |s| && AfterSymbol(t) <= |s|
    requires MatchOpen(s, t.at) == Some((t.lb, t.kw, t.alt))
    requires MatchSymbol(s, t.alt) == Some((t.quoted, t.symStart, t.symEnd))
    requires MatchTail(s, AfterSymbol(t)) == Some((t.rb, t.defAt, t.nameStart, t.nameEnd))
    ensures MatchAt(s, t.at) == Some(t)
  {
    var after := if t.quoted then t.symEnd + 1 else t.symEnd;
    assert after == AfterSymbol(t);
    assert t == Parse(t.at, t.lb, t.kw, t.alt, t.quoted, t.symStart, t.symEnd,
                      t.rb, t.defAt, t.nameStart, t.nameEnd);
  }

  /** Every match of the pattern at a position is the one MatchAt finds there: the pattern
      admits one decomposition per starting position. */
  lemma MatchAtComplete(s: string, t: Parse)
    requires IsParse(s, t)
    ensures MatchAt(s, t.at) == Some(t)
  {
    assert !IsSpace(s[t.alt]) by {
      if t.quoted {
        assert s[t.alt] == '"';
      } else {
        assert IsWordChar(s[t.alt]);
      }
    }
    OpenComplete(s, t.at, t.lb, t.kw, t.alt);
    if !t.quoted && t.symEnd < |s| {
      if t.symEnd < t.rb {
        assert IsSpace(s[t.symEnd]);
      }
    }
    SymbolComplete(s, t.alt, t.quoted, t.symStart, t.symEnd);
    TailComplete(s, AfterSymbol(t), t.rb, t.defAt, t.nameStart, t.nameEnd);
    StagesAssemble(s, t);
  }

  /** MatchAt and the pattern's language agree in both directions. */
  lemma MatchAtExact(s: string, p: nat, t: Parse)
    ensures MatchAt(s, p) == Some(t) <==> IsParse(s, t) && t.at == p
  {
    if IsParse(s, t) && t.at == p {
      MatchAtComplete(s, t);
    }
  }

  // ---------------------------------------------------------------------------------------
  // finditer

  /** The symbol and the name of `t` are non-empty slices of a text of length `n`. */
  predicate Spans(n: nat, t: Parse)
  {
    t.symStart < t.symEnd <= n && t.nameStart < t.nameEnd <= n
  }

  /** A pattern tried at each position of a text of length `n`: a match found at `q` starts at
      `q` and ends after it, within the text. */
  predicate Proper(n: nat, m: nat -> Option<Parse>)
  {
    forall q: nat | q < n :: m(q).Some? ==> m(q).value.at == q && q < m(q).value.nameEnd <= n && Spans(n, m(q).value)
  }

  /** `finditer` from position `p` over a text of length `n`: try each position in turn, and
      after a match continue where it ended. */
  function FindIter(n: nat, m: nat -> Option<Parse>, p: nat): (r: seq<Parse>)
    requires p <= n && Proper(n, m)
    ensures forall i | 0 <= i < |r| :: p <= r[i].at < r[i].nameEnd <= n && Spans(n, r[i])
    ensures forall i | 0 <= i < |r| - 1 :: r[i].nameEnd <= r[i + 1].at
    decreases n - p
  {
    if p == n then []
    else
      var x := m(p);
      if x.None? then FindIter(n, m, p + 1) else [x.value] + FindIter(n, m, x.value.nameEnd)
  }

  /** One step of `finditer`: skip a position without a match, or report the match and
      continue at its end. */
  lemma FindIterStep(n: nat, m: nat -> Option<Parse>, p: nat)
    requires p < n && Proper(n, m)
    ensures m(p).None? ==> FindIter(n, m, p) == FindIter(n, m, p + 1)
    ensures m(p).Some? ==> FindIter(n, m, p) == [m(p).value] + FindIter(n, m, m(p).value.nameEnd)
  {
  }

  /** Every reported match is the pattern's match at its own start. */
  lemma {:induction false} FindIterSound(n: nat, m: nat -> Option<Parse>, p: nat)
    requires p <= n && Proper(n, m)
    ensures forall i | 0 <= i < |FindIter(n, m, p)| :: m(FindIter(n, m, p)[i].at) == Some(FindIter(n, m, p)[i])
    decreases n - p
  {
    if p < n {
      var x := m(p);
      if x.None? {
        FindIterSound(n, m, p + 1);
      } else {
        FindIterSound(n, m, x.value.nameEnd);
        var r := FindIter(n, m, p);
        forall i | 0 <= i < |r|
          ensures m(r[i].at) == Some(r[i])
        {
          if i > 0 {
            assert r[i] == FindIter(n, m, x.value.nameEnd)[i - 1];
          }
        }
      }
    }
  }

  /** No match starts in [a, b). */
  predicate NoMatchIn(m: nat -> Option<Parse>, a: nat, b: nat)
  {
    forall q: nat | a <= q < b :: m(q).None?
  }

  /** Leftmost-first, at the ends: no match starts before the first reported one or after the
      last. */
  lemma {:induction false} FindIterOuterGaps(n: nat, m: nat -> Option<Parse>, p: nat)
    requires p <= n && Proper(n, m)
    ensures |FindIter(n, m, p)| == 0 ==> NoMatchIn(m, p, n)
    ensures |FindIter(n, m, p)| > 0 ==> NoMatchIn(m, p, FindIter(n, m, p)[0].at)
    ensures |FindIter(n, m, p)| > 0 ==> NoMatchIn(m, FindIter(n, m, p)[|FindIter(n, m, p)| - 1].nameEnd, n)
    decreases n - p
  {
    if p < n {
      var x := m(p);
      if x.None? {
        FindIterOuterGaps(n, m, p + 1);
      } else {
        FindIterOuterGaps(n, m, x.value.nameEnd);
        var rest := FindIter(n, m, x.value.nameEnd);
        if |rest| > 0 {
          assert FindIter(n, m, p)[|FindIter(n, m, p)| - 1] == rest[|rest| - 1];
        }
      }
    }
  }

  /** Leftmost-first, between reported matches: no match starts in the gap between two
      consecutive ones. */
  lemma {:induction false} FindIterInnerGaps(n: nat, m: nat -> Option<Parse>, p: nat)
    requires p <= n && Proper(n, m)
    ensures forall i | 0 <= i < |FindIter(n, m, p)| - 1 ::
              NoMatchIn(m, FindIter(n, m, p)[i].nameEnd, FindIter(n, m, p)[i + 1].at)
    decreases n - p
  {
    if p < n {
      var x := m(p);
      if x.None? {
        FindIterInnerGaps(n, m, p + 1);
      } else {
        var rest := FindIter(n, m, x.value.nameEnd);
        FindIterInnerGaps(n, m, x.value.nameEnd);
        FindIterOuterGaps(n, m, x.value.nameEnd);
        var r := FindIter(n, m, p);
        forall i | 0 <= i < |r| - 1
          ensures NoMatchIn(m, r[i].nameEnd, r[i + 1].at)
        {
          if i > 0 {
            assert r[i] == rest[i - 1] && r[i + 1] == rest[i];
          }
        }
      }
    }
  }

  /** In an ordered run of matches, the last one starting at or before a position `q` between
      the first start and the last end: `q` lies in it or in the gap after it. */
  lemma FindCovering(r: seq<Parse>, q: nat) returns (i: nat)
    requires |r| > 0 && r[0].at <= q < r[|r| - 1].nameEnd
    requires forall j | 0 <= j < |r| - 1 :: r[j].nameEnd <= r[j + 1].at
    ensures i < |r| && r[i].at <= q
    ensures i + 1 < |r| ==> q < r[i + 1].at
    ensures i + 1 == |r| ==> q < r[i].nameEnd
  {
    i := 0;
    while i + 1 < |r| && r[i + 1].at <= q
      invariant i < |r| && r[i].at <= q
    {
      i := i + 1;
    }
  }

  /** Every match found by `finditer` either is reported or starts strictly inside a reported
      match. */
  lemma FindIterLeftmost(n: nat, m: nat -> Option<Parse>, q: nat)
    requires q < n && Proper(n, m) && m(q).Some?
    ensures var r := FindIter(n, m, 0);
            m(q).value in r || exists i | 0 <= i < |r| :: r[i].at < q < r[i].nameEnd
  {
    var r := FindIter(n, m, 0);
    FindIterSound(n, m, 0);
    FindIterOuterGaps(n, m, 0);
    FindIterInnerGaps(n, m, 0);
    if m(q).value !in r && |r| > 0 && r[0].at <= q < r[|r| - 1].nameEnd {
      var i := FindCovering(r, q);
      if r[i].at < q < r[i].nameEnd {
        assert r[i].at < q < r[i].nameEnd;
      }
    }
  }

  /** The pattern of `parse_exports` as a matcher over `s`. */
  function Pattern(s: string): (m: nat -> Option<Parse>)
    ensures Proper(|s|, m)
  {
    var m := (q: nat) => MatchAt(s, q);
    assert forall q: nat | q < |s| :: m(q) == MatchAt(s, q);
    m
  }

  /** `pattern.finditer(s)`: the matches of the pattern, as `finditer` reports them. */
  function Matches(s: string): (r: seq<Parse>)
    ensures forall i | 0 <= i < |r| :: r[i].at < r[i].nameEnd <= |s| && Spans(|s|, r[i])
    ensures forall i | 0 <= i < |r| - 1 :: r[i].nameEnd <= r[i + 1].at
  {
    FindIter(|s|, Pattern(s), 0)
  }

  /** Every reported match is a match of the pattern, found at its start. */
  lemma MatchesSound(s: string)
    ensures forall i | 0 <= i < |Matches(s)| :: IsParse(s, Matches(s)[i]) && MatchAt(s, Matches(s)[i].at) == Some(Matches(s)[i])
  {
    FindIterSound(|s|, Pattern(s), 0);
    var r := Matches(s);
    forall i | 0 <= i < |r|
      ensures IsParse(s, r[i]) && MatchAt(s, r[i].at) == Some(r[i])
    {
      assert Pattern(s)(r[i].at) == MatchAt(s, r[i].at);
    }
  }

  /** Leftmost-first, in terms of the pattern's language: any match of the pattern that is not
      reported starts strictly inside a reported one. */
  lemma MatchesLeftmost(s: string, t: Parse)
    requires IsParse(s, t)
    ensures t in Matches(s) || exists i | 0 <= i < |Matches(s)| :: Matches(s)[i].at < t.at < Matches(s)[i].nameEnd
  {
    MatchAtComplete(s, t);
    assert Pattern(s)(t.at) == Some(t);
    FindIterLeftmost(|s|, Pattern(s), t.at);
  }

  // ---------------------------------------------------------------------------------------
  // The records

  /** The text s[t.symStart..t.symEnd] of a match: the symbol inside the quotes or the bare word. */
  function SymbolText(s: string, t: Parse): string
    requires Spans(|s|, t)
  {
    s[t.symStart..t.symEnd]
  }

  /** The name after `def`. */
  function NameText(s: string, t: Parse): string
    requires Spans(|s|, t)
  {
    s[t.nameStart..t.nameEnd]
  }

  /** `m.group(1)`: the quoted symbol, absent when the bare alternative matched. */
  function Group1(s: string, t: Parse): Option<string>
    requires Spans(|s|, t)
  {
    if t.quoted then Some(SymbolText(s, t)) else None
  }

  /** `m.group(2)`: the bare symbol, absent when the quoted alternative matched. */
  function Group2(s: string, t: Parse): Option<string>
    requires Spans(|s|, t)
  {
    if t.quoted then None else Some(SymbolText(s, t))
  }

  /** Python's `a or b` for an optional string `a`: `a` when it is present and non-empty. */
  function OrElse(a: Option<string>, b: string): string
  {
    if a.Some? && a.value != [] then a.value else b
  }

  /** The record one match yields: `m.group(1) or m.group(2) or ""` and `m.group(3) or ""`,
      kept only when both are non-empty. */
  function RecordOf(s: string, t: Parse): seq<Export>
    requires Spans(|s|, t)
  {
    var cSymbol := OrElse(Group1(s, t), OrElse(Group2(s, t), ""));
    var leanName := OrElse(Some(NameText(s, t)), "");
    if cSymbol != [] && leanName != [] then [Export(cSymbol, leanName)] else []
  }

  /** The records `parse_exports` makes from a run of matches, keeping those whose symbol and
      name are both non-empty. */
  function ExportsOf(s: string, ts: seq<Parse>): (r: seq<Export>)
    requires forall i | 0 <= i < |ts| :: Spans(|s|, ts[i])
    ensures |r| <= |ts|
    ensures forall i | 0 <= i < |r| :: r[i].cSymbol != [] && r[i].leanName != []
  {
    if ts == [] then [] else RecordOf(s, ts[0]) + ExportsOf(s, ts[1..])
  }

  /** ExportsOf on a run that starts with `t`. */
  lemma ExportsOfCons(s: string, t: Parse, ts: seq<Parse>)
    requires Spans(|s|, t) && forall i | 0 <= i < |ts| :: Spans(|s|, ts[i])
    ensures var cSymbol := OrElse(Group1(s, t), OrElse(Group2(s, t), ""));
            var leanName := OrElse(Some(NameText(s, t)), "");
            ExportsOf(s, [t] + ts)
            == (if cSymbol != [] && leanName != [] then [Export(cSymbol, leanName)] else []) + ExportsOf(s, ts)
  {
    assert ([t] + ts)[1..] == ts;
  }

  /** What `parse_exports` returns for `source`. */
  function Exports(source: string): (r: seq<Export>)
    ensures |r| <= |Matches(source)|
    ensures forall i | 0 <= i < |r| :: r[i].cSymbol != [] && r[i].leanName != []
  {
    ExportsOf(source, Matches(source))
  }

  /** The records of the matches the scan reports from position `p` on. */
  ghost function RecordsFrom(source: string, p: nat): seq<Export>
    requires p <= |source|
  {
    ExportsOf(source, FindIter(|source|, Pattern(source), p))
  }

  /** The scan from the start gives every record, and the scan from the end gives none. */
  lemma RecordsFromEnds(source: string)
    ensures RecordsFrom(source, 0) == Exports(source)
    ensures RecordsFrom(source, |source|) == []
  {
  }

  /** One step of the scan in terms of records: no match at `p` contributes nothing, a match
      contributes its record (when both groups are non-empty) and the scan resumes at its end. */
  lemma ExportsFrom(source: string, p: nat)
    requires p < |source|
    ensures MatchAt(source, p).None? ==> RecordsFrom(source, p) == RecordsFrom(source, p + 1)
    ensures MatchAt(source, p).Some? ==>
              var t := MatchAt(source, p).value;
              p < t.nameEnd <= |source| && Spans(|source|, t)
              && RecordsFrom(source, p) == RecordOf(source, t) + RecordsFrom(source, t.nameEnd)
  {
    FindIterStep(|source|, Pattern(source), p);
    assert Pattern(source)(p) == MatchAt(source, p);
    if MatchAt(source, p).Some? {
      var t := MatchAt(source, p).value;
      var ts := FindIter(|source|, Pattern(source), t.nameEnd);
      assert ([t] + ts)[1..] == ts;
    }
  }

  lemma AppendAssoc(a: seq<Export>, b: seq<Export>, c: seq<Export>)
    ensures (a + b) + c == a + (b + c)
  {
  }

  /** One turn of the `for` loop over `finditer`: the match tried at `p`, the record it adds
      (nothing when there is no match there) and the position the scan resumes from. */
  method ScanStep(source: string, p: nat) returns (record: seq<Export>, next: nat)
    requires p < |source|
    ensures p < next <= |source|
    ensures RecordsFrom(source, p) == record + RecordsFrom(source, next)
  {
    var m := MatchAt(source, p);
    ExportsFrom(source, p);
    if m.Some? {
      record := RecordOf(source, m.value);
      next := m.value.nameEnd;
    } else {
      record, next := [], p + 1;
    }
  }

  /** `parse_exports`: the loop over `finditer`, with the group fallbacks and the emptiness test
      of the source. */
  method ParseExports(source: string) returns (out: seq<Export>)
    ensures out == Exports(source)
  {
    RecordsFromEnds(source);
    out := [];
    var p := 0;
    while p < |source|
      invariant p <= |source|
      invariant out + RecordsFrom(source, p) == Exports(source)
      decreases |source| - p
    {
      var record, next := ScanStep(source, p);
      AppendAssoc(out, record, RecordsFrom(source, next));
      out, p := out + record, next;
    }
    assert out + [] == out;
  }

  // ---------------------------------------------------------------------------------------
  // Properties

  /** The test `if c_symbol and lean_name` never drops a match: every match yields one record,
      holding its symbol text and its name, in source order. */
  lemma {:induction false} ExportsOfKeepsAll(s: string, ts: seq<Parse>)
    requires forall i | 0 <= i < |ts| :: Spans(|s|, ts[i])
    ensures |ExportsOf(s, ts)| == |ts|
    ensures forall i | 0 <= i < |ts| :: ExportsOf(s, ts)[i] == Export(SymbolText(s, ts[i]), NameText(s, ts[i]))
  {
    if ts != [] {
      ExportsOfKeepsAll(s, ts[1..]);
      var t := ts[0];
      assert |SymbolText(s, t)| > 0 && |NameText(s, t)| > 0;
      var e := Export(SymbolText(s, t), NameText(s, t));
      assert ExportsOf(s, ts) == [e] + ExportsOf(s, ts[1..]);
      forall i | 0 <= i < |ts|
        ensures ExportsOf(s, ts)[i] == Export(SymbolText(s, ts[i]), NameText(s, ts[i]))
      {
        if i > 0 {
          assert ts[1..][i - 1] == ts[i];
        }
      }
    }
  }

  /** The records of `parse_exports`: one per reported match in source order, each with the
      matched symbol and name. */
  lemma ExportsAreMatches(source: string)
    ensures |Exports(source)| == |Matches(source)|
    ensures forall i | 0 <= i < |Exports(source)| ::
              Exports(source)[i] == Export(SymbolText(source, Matches(source)[i]), NameText(source, Matches(source)[i]))
  {
    ExportsOfKeepsAll(source, Matches(source));
  }

  /** What each reported match contributes: a non-empty symbol, with no `"` in it when quoted
      and all word characters when bare, and a non-empty name of word characters that no word
      character follows. */
  lemma MatchFields(source: string, i: nat)
    requires i < |Matches(source)|
    ensures var t := Matches(source)[i];
            SymbolText(source, t) != [] && NameText(source, t) != []
            && (t.quoted ==> '"' !in SymbolText(source, t))
            && (!t.quoted ==> forall c | c in SymbolText(source, t) :: IsWordChar(c))
            && (!t.quoted ==> t.symEnd < |source| && !IsWordChar(source[t.symEnd]))
            && (forall c | c in NameText(source, t) :: IsWordChar(c))
            && (t.nameEnd == |source| || !IsWordChar(source[t.nameEnd]))
  {
    MatchesSound(source);
    ParseFields(source, Matches(source)[i]);
  }

  /** The fields of one match of the pattern. */
  lemma ParseFields(s: string, t: Parse)
    requires IsParse(s, t)
    ensures SymbolText(s, t) != [] && NameText(s, t) != []
    ensures t.quoted ==> '"' !in SymbolText(s, t)
    ensures !t.quoted ==> forall c | c in SymbolText(s, t) :: IsWordChar(c)
    ensures !t.quoted ==> t.symEnd < |s| && !IsWordChar(s[t.symEnd])
    ensures forall c | c in NameText(s, t) :: IsWordChar(c)
    ensures t.nameEnd == |s| || !IsWordChar(s[t.nameEnd])
  {
    var sym, name := SymbolText(s, t), NameText(s, t);
    forall c | c in name
      ensures IsWordChar(c)
    {
      var k :| 0 <= k < |name| && name[k] == c;
      assert s[t.nameStart + k] == c;
    }
    if !t.quoted {
      forall c | c in sym
        ensures IsWordChar(c)
      {
        var k :| 0 <= k < |sym| && sym[k] == c;
        assert s[t.symStart + k] == c;
      }
      if t.symEnd < t.rb {
        assert IsSpace(s[t.symEnd]);
      }
    }
  }

  /** Every match starts at an `@`, so a source without one has no exports. */
  lemma NoAtNoExports(source: string)
    requires '@' !in source
    ensures Exports(source) == []
  {
    ExportsAreMatches(source);
    MatchesSound(source);
  }

  /** A filler that ends before a non-space starts, after its leading whitespace, with a
      `[` group or at its end. */
  lemma {:induction false} FillerFirst(s: string, i: nat, j: nat)
    requires Filler(s, i, j) && j < |s| && !IsSpace(s[j])
    ensures SkipSpace(s, i) < |s|
    ensures s[SkipSpace(s, i)] == '[' || SkipSpace(s, i) == j
    decreases j - i
  {
    if i < j && IsSpace(s[i]) && Filler(s, i + 1, j) {
      FillerFirst(s, i + 1, j);
    }
  }

  /** Only whitespace and `[...]` groups may sit between an attribute and its `def`: in every
      match, the first non-space character after the attribute's `]` is a `[` or begins `def`.
      A modifier (`private def`), a second `@[...]` or a missing `def` leaves the attribute
      without a match. */
  lemma AfterAttribute(s: string, t: Parse)
    requires IsParse(s, t)
    ensures SkipSpace(s, t.rb + 1) < |s|
    ensures s[SkipSpace(s, t.rb + 1)] == '[' || LitAt(s, SkipSpace(s, t.rb + 1), "def")
  {
    assert !IsSpace(s[t.defAt]) by {
      assert s[t.defAt] == s[t.defAt..t.defAt + 3][0];
    }
    FillerFirst(s, t.rb + 1, t.defAt);
  }
}
