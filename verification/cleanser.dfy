/** `clean_text` in data_cleanser.py: a fixed chain of whole-string passes
    over the text extracted from a CV. Each pass is a function on `string`;
    `CleanText` composes them in the order the source applies them. */
module Cleanser {
  import opened Strings

  // ---------------------------------------------------------------------
  // Character classes.

  /** Whitespace as `str.isspace` and the `\s` class of a `str` pattern see
      it: the ASCII controls 9-13 and 28-31, the space, and the Unicode
      spaces and separators. */
  predicate IsSpace(c: char) {
    var n := c as int;
    9 <= n <= 13 || 0x1c <= n <= 0x20 || n == 0x85 || n == 0xa0 || n == 0x1680
    || 0x2000 <= n <= 0x200a || n == 0x2028 || n == 0x2029 || n == 0x202f
    || n == 0x205f || n == 0x3000
  }

  predicate NotSpace(c: char) {
    !IsSpace(c)
  }

  /** Line boundaries as `str.splitlines` sees them (`"\r\n"` is one). */
  predicate IsLineBreak(c: char) {
    var n := c as int;
    10 <= n <= 13 || 0x1c <= n <= 0x1e || n == 0x85 || n == 0x2028 || n == 0x2029
  }

  predicate NoLineBreak(t: string) {
    forall j :: 0 <= j < |t| ==> !IsLineBreak(t[j])
  }

  predicate IsAscii(c: char) {
    c as int < 128
  }

  /** The complement of the class deleted by the "strange characters" pass:
      ASCII letters and digits, whitespace, and `. , ! + % $ ? ; : / - ' "`. */
  predicate IsAllowed(c: char) {
    'A' <= c <= 'Z' || 'a' <= c <= 'z' || '0' <= c <= '9' || IsSpace(c)
    || c in ".,!+%$?;:/-'\""
  }

  // ---------------------------------------------------------------------
  // Pass 1 (data_cleanser.py:20): drop every character outside ASCII.

  function AsciiOnly(s: string): (r: string)
    ensures |r| <= |s|
    ensures forall i :: 0 <= i < |r| ==> IsAscii(r[i])
  {
    KeepSatisfies(s, IsAscii);
    Keep(s, IsAscii)
  }

  /** The ASCII pass leaves only ASCII characters, and keeps every ASCII
      character of the input as often as it occurs. */
  lemma AsciiOnlyExact(s: string, c: char)
    ensures forall i :: 0 <= i < |AsciiOnly(s)| ==> IsAscii(AsciiOnly(s)[i])
    ensures multiset(AsciiOnly(s))[c] == if IsAscii(c) then multiset(s)[c] else 0
  {
    KeepSatisfies(s, IsAscii);
    KeepCounts(s, IsAscii, c);
  }

  // ---------------------------------------------------------------------
  // Pass 2 (data_cleanser.py:23): delete every match of the pattern
  // `\S+@\S+` (non-whitespace, '@', non-whitespace), scanning left to right.

  /** Length of the run of non-whitespace characters that starts `s`. */
  function RunLength(s: string): (n: nat)
    ensures n <= |s|
    ensures forall j :: 0 <= j < n ==> !IsSpace(s[j])
    ensures n < |s| ==> IsSpace(s[n])
  {
    if s == [] || IsSpace(s[0]) then 0 else 1 + RunLength(s[1..])
  }

  /** The pattern matches at the start of `s`: an '@' at index `k >= 1`
      with no whitespace before it and at least one non-whitespace
      character after it. */
  predicate EmailMatchAt(s: string) {
    exists k :: 1 <= k < |s| - 1 && s[k] == '@' && forall j :: 0 <= j < k + 2 ==> !IsSpace(s[j])
  }

  /** A whitespace-free token that is an address: an '@' with at least one
      character on each side. */
  predicate IsEmailToken(t: string) {
    exists k :: 1 <= k < |t| - 1 && t[k] == '@'
  }

  /** Whether the pattern matches where `s` starts is decided by the
      whitespace-free token there. */
  lemma EmailMatchIsToken(s: string)
    ensures EmailMatchAt(s) <==> IsEmailToken(s[..RunLength(s)])
  {
    var n := RunLength(s);
    var t := s[..n];
    if EmailMatchAt(s) {
      var k :| 1 <= k < |s| - 1 && s[k] == '@' && forall j :: 0 <= j < k + 2 ==> !IsSpace(s[j]);
      assert k + 2 <= n;
      assert t[k] == '@';
    }
    if IsEmailToken(t) {
      var k :| 1 <= k < |t| - 1 && t[k] == '@';
      assert s[k] == '@';
      assert forall j :: 0 <= j < k + 2 ==> !IsSpace(s[j]);
    }
  }

  /** A match spans at least three characters of the starting run. */
  lemma MatchSpansRun(s: string)
    requires EmailMatchAt(s)
    ensures RunLength(s) >= 3
  {
    EmailMatchIsToken(s);
  }

  /** The substitution as the regex engine performs it: at each position,
      try a match; the greedy final `\S+` runs to the end of the
      whitespace-free run, which is deleted; otherwise keep one character
      and move on. */
  function RemoveEmails(s: string): (r: string)
    ensures |r| <= |s|
    decreases |s|
  {
    if s == [] then []
    else if EmailMatchAt(s) then
      MatchSpansRun(s);
      RemoveEmails(s[RunLength(s)..])
    else [s[0]] + RemoveEmails(s[1..])
  }

  /** The email pass only deletes: a property of every input character
      holds of every output character. */
  lemma {:induction false} RemoveEmailsPreserves(s: string, q: char -> bool)
    requires forall i :: 0 <= i < |s| ==> q(s[i])
    ensures forall i :: 0 <= i < |RemoveEmails(s)| ==> q(RemoveEmails(s)[i])
    decreases |s|
  {
    if s != [] {
      if EmailMatchAt(s) {
        MatchSpansRun(s);
        var n := RunLength(s);
        SuffixPreserves(s, n, q);
        RemoveEmailsPreserves(s[n..], q);
      } else {
        SuffixPreserves(s, 1, q);
        RemoveEmailsPreserves(s[1..], q);
        ConsPreserves(s[0], RemoveEmails(s[1..]), q);
      }
    }
  }

  /** A property of every character holds of every character of a suffix. */
  lemma SuffixPreserves(s: string, n: nat, q: char -> bool)
    requires n <= |s|
    requires forall i :: 0 <= i < |s| ==> q(s[i])
    ensures forall i :: 0 <= i < |s[n..]| ==> q(s[n..][i])
  {
    assert forall i :: 0 <= i < |s[n..]| ==> s[n..][i] == s[n + i];
  }

  /** A property of a character and of every character of a string holds of
      every character of the string with that character in front. */
  lemma ConsPreserves(c: char, rest: string, q: char -> bool)
    requires q(c)
    requires forall i :: 0 <= i < |rest| ==> q(rest[i])
    ensures forall i :: 0 <= i < |[c] + rest| ==> q(([c] + rest)[i])
  {
    assert forall i :: 1 <= i < |[c] + rest| ==> ([c] + rest)[i] == rest[i - 1];
  }

  /** The same pass stated token by token: whitespace is kept, and each
      maximal whitespace-free token is deleted when it is an address and
      kept whole otherwise. */
  function RemoveEmailTokens(s: string): string
    decreases |s|
  {
    if s == [] then []
    else if IsSpace(s[0]) then [s[0]] + RemoveEmailTokens(s[1..])
    else
      var n := RunLength(s);
      (if IsEmailToken(s[..n]) then [] else s[..n]) + RemoveEmailTokens(s[n..])
  }

  lemma RunLengthSuffix(s: string, j: nat)
    requires j <= RunLength(s)
    ensures RunLength(s[j..]) == RunLength(s) - j
  {
  }

  /** A match starting inside a run would already match at the run's start. */
  lemma MatchInsideRun(s: string, j: nat)
    requires 0 < j < RunLength(s)
    ensures EmailMatchAt(s[j..]) ==> EmailMatchAt(s)
  {
    var u := s[j..];
    if EmailMatchAt(u) {
      var k :| 1 <= k < |u| - 1 && u[k] == '@' && forall i :: 0 <= i < k + 2 ==> !IsSpace(u[i]);
      assert s[j + k] == '@';
      forall i | 0 <= i < j + k + 2
        ensures !IsSpace(s[i])
      {
        if i >= j {
          assert s[i] == u[i - j];
        }
      }
    }
  }

  /** When no match starts a run, the scan copies the whole run. */
  lemma ScanCopiesRun(s: string, j: nat)
    requires !EmailMatchAt(s)
    requires j <= RunLength(s)
    ensures RemoveEmails(s[j..]) == s[j..RunLength(s)] + RemoveEmails(s[RunLength(s)..])
  {
    var n := RunLength(s);
    forall k | j <= k < n
      ensures RemoveEmails(s[k..]) == [s[k]] + RemoveEmails(s[k + 1..])
    {
      ScanCopiesOne(s, k);
    }
    CopiesRange(s, j, n, RemoveEmails);
  }

  /** A scan `f` that copies each character of `s[j..n]` copies the range. */
  lemma {:induction false} CopiesRange(s: string, j: nat, n: nat, f: string -> string)
    requires j <= n <= |s|
    requires forall k :: j <= k < n ==> f(s[k..]) == [s[k]] + f(s[k + 1..])
    ensures f(s[j..]) == s[j..n] + f(s[n..])
    decreases n - j
  {
    if j < n {
      CopiesRange(s, j + 1, n, f);
      assert s[j..n] == [s[j]] + s[j + 1..n];
    }
  }

  /** Inside a run where no match starts, the scan copies one character. */
  lemma ScanCopiesOne(s: string, j: nat)
    requires !EmailMatchAt(s)
    requires j < RunLength(s)
    ensures RemoveEmails(s[j..]) == [s[j]] + RemoveEmails(s[j + 1..])
  {
    var u := s[j..];
    if j > 0 {
      MatchInsideRun(s, j);
    }
    assert !EmailMatchAt(u);
    assert u[1..] == s[j + 1..];
  }

  /** The regex scan and the token-wise description agree on every input. */
  lemma {:induction false} RemoveEmailsByToken(s: string)
    ensures RemoveEmails(s) == RemoveEmailTokens(s)
    decreases |s|
  {
    if s != [] {
      EmailMatchIsToken(s);
      var n := RunLength(s);
      if IsSpace(s[0]) {
        assert s[..n] == [];
        RemoveEmailsByToken(s[1..]);
      } else {
        if !EmailMatchAt(s) {
          ScanCopiesRun(s, 0);
          assert s[0..] == s;
          assert s[0..n] == s[..n];
        }
        RemoveEmailsByToken(s[n..]);
      }
    }
  }

  /** Every whitespace character survives the pass, in order. */
  lemma {:induction false} RemoveEmailTokensKeepsSpace(s: string)
    ensures Keep(RemoveEmailTokens(s), IsSpace) == Keep(s, IsSpace)
    decreases |s|
  {
    if s != [] {
      if IsSpace(s[0]) {
        RemoveEmailTokensKeepsSpace(s[1..]);
        SpaceKeptBeforeRest(s);
      } else {
        RemoveEmailTokensKeepsSpace(s[RunLength(s)..]);
        SpaceKeptAfterToken(s);
      }
    }
  }

  /** A leading whitespace character is kept in front of the rest. */
  lemma SpaceKeptBeforeRest(s: string)
    requires s != [] && IsSpace(s[0])
    requires Keep(RemoveEmailTokens(s[1..]), IsSpace) == Keep(s[1..], IsSpace)
    ensures Keep(RemoveEmailTokens(s), IsSpace) == Keep(s, IsSpace)
  {
    KeepAppend([s[0]], RemoveEmailTokens(s[1..]), IsSpace);
    KeepAppend([s[0]], s[1..], IsSpace);
    assert s == [s[0]] + s[1..];
  }

  /** A leading token, kept or deleted, holds no whitespace to lose. */
  lemma SpaceKeptAfterToken(s: string)
    requires s != [] && !IsSpace(s[0])
    requires Keep(RemoveEmailTokens(s[RunLength(s)..]), IsSpace) == Keep(s[RunLength(s)..], IsSpace)
    ensures Keep(RemoveEmailTokens(s), IsSpace) == Keep(s, IsSpace)
  {
    var n := RunLength(s);
    var dropped := IsEmailToken(s[..n]);
    assert RemoveEmailTokens(s) == (if dropped then [] else s[..n]) + RemoveEmailTokens(s[n..]);
    KeepAfterFailingPrefix(s, n, RemoveEmailTokens(s), RemoveEmailTokens(s[n..]), IsSpace, dropped);
  }

  /** When no character of `s[..n]` passes `p`, keeping from `s` is keeping
      from `s[n..]`, whether or not that prefix is put in front of the rest. */
  lemma KeepAfterFailingPrefix(s: string, n: nat, r: string, v: string, p: char -> bool, dropped: bool)
    requires n <= |s|
    requires forall i :: 0 <= i < n ==> !p(s[i])
    requires r == (if dropped then [] else s[..n]) + v
    requires Keep(v, p) == Keep(s[n..], p)
    ensures Keep(r, p) == Keep(s, p)
  {
    var token := s[..n];
    assert forall i :: 0 <= i < |token| ==> token[i] == s[i];
    KeepNone(token, p);
    assert s == token + s[n..];
    KeepAppend(token, s[n..], p);
    if dropped {
      assert r == [] + v == v;
    } else {
      KeepAppend(token, v, p);
    }
  }

  /** A run ends where the next whitespace begins. */
  lemma {:induction false} RunLengthOfToken(t: string, u: string)
    requires forall j :: 0 <= j < |t| ==> !IsSpace(t[j])
    requires u == [] || IsSpace(u[0])
    ensures RunLength(t + u) == |t|
    decreases |t|
  {
    if t == [] {
      assert t + u == u;
    } else {
      assert (t + u)[0] == t[0];
      assert (t + u)[1..] == t[1..] + u;
      RunLengthOfToken(t[1..], u);
    }
  }

  /** Applying the pass twice deletes nothing more: no address survives it. */
  lemma {:induction false} RemoveEmailTokensIdempotent(s: string)
    ensures RemoveEmailTokens(RemoveEmailTokens(s)) == RemoveEmailTokens(s)
    decreases |s|
  {
    if s != [] {
      var r := RemoveEmailTokens(s);
      if IsSpace(s[0]) {
        RemoveEmailTokensIdempotent(s[1..]);
        assert r[0] == s[0];
        assert r[1..] == RemoveEmailTokens(s[1..]);
      } else {
        var n := RunLength(s);
        var token := s[..n];
        var rest := RemoveEmailTokens(s[n..]);
        RemoveEmailTokensIdempotent(s[n..]);
        if IsEmailToken(token) {
          assert r == rest;
        } else {
          assert r == token + rest;
          assert rest == [] || IsSpace(rest[0]);
          RunLengthOfToken(token, rest);
          assert r[..n] == token;
          assert r[n..] == rest;
        }
      }
    }
  }

  /** The pass keeps all whitespace and removes every address, so a second
      application changes nothing. */
  lemma RemoveEmailsFacts(s: string)
    ensures Keep(RemoveEmails(s), IsSpace) == Keep(s, IsSpace)
    ensures RemoveEmails(RemoveEmails(s)) == RemoveEmails(s)
  {
    RemoveEmailsByToken(s);
    RemoveEmailsByToken(RemoveEmails(s));
    RemoveEmailTokensKeepsSpace(s);
    RemoveEmailTokensIdempotent(s);
  }

  // ---------------------------------------------------------------------
  // Pass 3 (data_cleanser.py:38): replace each run of two or more spaces by
  // one space. Only U+0020 is involved; tabs, newlines and other whitespace
  // are left alone.

  predicate NotBlank(c: char) {
    c != ' '
  }

  predicate NoDoubleSpace(s: string) {
    forall i :: 0 <= i < |s| - 1 ==> !(s[i] == ' ' && s[i + 1] == ' ')
  }

  /** Length of the run of spaces that starts `s`. */
  function SpaceRun(s: string): (n: nat)
    ensures n <= |s|
    ensures forall j :: 0 <= j < n ==> s[j] == ' '
    ensures n < |s| ==> s[n] != ' '
  {
    if s == [] || s[0] != ' ' then 0 else 1 + SpaceRun(s[1..])
  }

  /** Each run of two or more spaces becomes one space; a lone space and
      every other character are copied. */
  function CollapseSpaces(s: string): (r: string)
    ensures |r| <= |s|
    ensures r == [] <==> s == []
    ensures r != [] ==> r[0] == s[0]
    ensures NoDoubleSpace(r)
    decreases |s|
  {
    if s == [] then []
    else if SpaceRun(s) >= 2 then " " + CollapseSpaces(s[SpaceRun(s)..])
    else [s[0]] + CollapseSpaces(s[1..])
  }

  /** An independent description of the collapse, character by character:
      a space is dropped exactly when the character before it is a space too,
      so each run of spaces keeps its first space. `afterSpace` says whether
      the character before `s` was a space. */
  function DropRepeatedSpaces(afterSpace: bool, s: string): string
    decreases |s|
  {
    if s == [] then []
    else (if afterSpace && s[0] == ' ' then [] else [s[0]]) + DropRepeatedSpaces(s[0] == ' ', s[1..])
  }

  /** After a space, the spaces that start `s` are all dropped. */
  lemma {:induction false} DropLeadingSpaces(s: string)
    ensures DropRepeatedSpaces(true, s) == DropRepeatedSpaces(false, s[SpaceRun(s)..])
    decreases |s|
  {
    if s != [] && s[0] == ' ' {
      DropLeadingSpaces(s[1..]);
      assert s[1..][SpaceRun(s[1..])..] == s[SpaceRun(s)..];
    }
  }

  /** The collapse is the character-by-character description: it replaces
      each run of two or more spaces by exactly one space. */
  lemma {:induction false} CollapseDropsRepeatedSpaces(s: string)
    ensures CollapseSpaces(s) == DropRepeatedSpaces(false, s)
    decreases |s|
  {
    if s != [] {
      var n := SpaceRun(s);
      if n >= 2 {
        CollapseDropsRepeatedSpaces(s[n..]);
        DropLeadingSpaces(s[1..]);
        assert s[1..][SpaceRun(s[1..])..] == s[n..];
      } else {
        CollapseDropsRepeatedSpaces(s[1..]);
        if s[0] == ' ' {
          DropLeadingSpaces(s[1..]);
          assert s[1..][SpaceRun(s[1..])..] == s[1..];
        }
      }
    }
  }

  /** The collapse only writes characters of its input: a property of every
      input character holds of every output character. */
  lemma {:induction false} CollapsePreserves(s: string, q: char -> bool)
    requires forall i :: 0 <= i < |s| ==> q(s[i])
    ensures forall i :: 0 <= i < |CollapseSpaces(s)| ==> q(CollapseSpaces(s)[i])
    decreases |s|
  {
    if s != [] {
      var n := if SpaceRun(s) >= 2 then SpaceRun(s) else 1;
      SuffixPreserves(s, n, q);
      CollapsePreserves(s[n..], q);
      ConsPreserves(s[0], CollapseSpaces(s[n..]), q);
    }
  }

  /** The collapse touches nothing but spaces: every other character,
      newlines and tabs included, is kept in order. */
  lemma {:induction false} CollapseKeepsText(s: string)
    ensures Keep(CollapseSpaces(s), NotBlank) == Keep(s, NotBlank)
    decreases |s|
  {
    if s != [] {
      var n := SpaceRun(s);
      if n >= 2 {
        var rest := CollapseSpaces(s[n..]);
        CollapseKeepsText(s[n..]);
        KeepAppend(" ", rest, NotBlank);
        KeepNone(s[..n], NotBlank);
        KeepAppend(s[..n], s[n..], NotBlank);
        assert s == s[..n] + s[n..];
      } else {
        var rest := CollapseSpaces(s[1..]);
        CollapseKeepsText(s[1..]);
        KeepAppend([s[0]], rest, NotBlank);
        KeepAppend([s[0]], s[1..], NotBlank);
        assert s == [s[0]] + s[1..];
      }
    }
  }

  /** The collapse changes a string exactly when it holds two adjacent
      spaces. */
  lemma {:induction false} CollapseFixpoint(s: string)
    ensures CollapseSpaces(s) == s <==> NoDoubleSpace(s)
    decreases |s|
  {
    if s != [] && NoDoubleSpace(s) {
      assert SpaceRun(s) < 2 by {
        if |s| >= 2 && s[0] == ' ' {
          assert !(s[0] == ' ' && s[1] == ' ');
        }
      }
      assert NoDoubleSpace(s[1..]) by {
        forall i | 0 <= i < |s[1..]| - 1
          ensures !(s[1..][i] == ' ' && s[1..][i + 1] == ' ')
        {
          assert s[1..][i] == s[i + 1] && s[1..][i + 1] == s[i + 2];
        }
      }
      CollapseFixpoint(s[1..]);
    }
  }

  // ---------------------------------------------------------------------
  // Pass 4 (data_cleanser.py:41-42): delete every character that is not allowed.

  function KeepAllowed(s: string): (r: string)
    ensures |r| <= |s|
    ensures forall i :: 0 <= i < |r| ==> IsAllowed(r[i])
  {
    KeepSatisfies(s, IsAllowed);
    Keep(s, IsAllowed)
  }

  /** The filter leaves only allowed characters and keeps each allowed
      character of the input as often as it occurs; '@' never survives. */
  lemma KeepAllowedExact(s: string, c: char)
    ensures forall i :: 0 <= i < |KeepAllowed(s)| ==> IsAllowed(KeepAllowed(s)[i])
    ensures '@' !in KeepAllowed(s)
    ensures multiset(KeepAllowed(s))[c] == if IsAllowed(c) then multiset(s)[c] else 0
  {
    KeepSatisfies(s, IsAllowed);
    KeepCounts(s, IsAllowed, c);
  }

  // ---------------------------------------------------------------------
  // Pass 5 (data_cleanser.py:45-47): split into lines, strip each line, join
  // them with "\n".

  /** Index of the first line break in `s`, or `|s|`. */
  function LineEnd(s: string): (i: nat)
    ensures i <= |s|
    ensures forall j :: 0 <= j < i ==> !IsLineBreak(s[j])
    ensures i < |s| ==> IsLineBreak(s[i])
  {
    if s == [] || IsLineBreak(s[0]) then 0 else 1 + LineEnd(s[1..])
  }

  /** Width of the break at `i`: two for "\r\n", none at the end. */
  function BreakWidth(s: string, i: nat): (w: nat)
    requires i <= |s|
    ensures i + w <= |s|
    ensures i < |s| ==> w >= 1
  {
    if i == |s| then 0
    else if s[i] == '\r' && i + 1 < |s| && s[i + 1] == '\n' then 2
    else 1
  }

  /** The first line of a text, without its break. */
  function FirstLine(s: string): (line: string)
    ensures NoLineBreak(line)
    ensures |line| <= |s| && line == s[..|line|]
  {
    s[..LineEnd(s)]
  }

  /** The text after the first line and its break. */
  function AfterFirstLine(s: string): (rest: string)
    requires s != []
    ensures |rest| < |s| && rest == s[|s| - |rest|..]
    ensures rest != [] ==> |FirstLine(s)| + 1 + |rest| <= |s|
  {
    var i := LineEnd(s);
    s[i + BreakWidth(s, i)..]
  }

  /** `str.splitlines()`: the lines without their breaks; a final break does
      not start another line, and the empty string has no lines. */
  function SplitLines(s: string): (r: seq<string>)
    ensures r == [] <==> s == []
    ensures forall k :: 0 <= k < |r| ==> NoLineBreak(r[k])
    decreases |s|
  {
    if s == [] then [] else [FirstLine(s)] + SplitLines(AfterFirstLine(s))
  }

  /** A line without breaks followed by "\n" is the first line; what
      follows the "\n" is the rest. */
  lemma FirstLineOfJoin(p: string, rest: string)
    requires NoLineBreak(p)
    requires rest != []
    ensures FirstLine(p + ['\n'] + rest) == p
    ensures AfterFirstLine(p + ['\n'] + rest) == rest
  {
    var s := p + ['\n'] + rest;
    assert s[|p|] == '\n';
    assert forall j :: 0 <= j < |p| ==> s[j] == p[j];
    assert LineEnd(s) == |p|;
    assert BreakWidth(s, |p|) == 1;
    assert s[..|p|] == p;
    assert s[|p| + 1..] == rest;
  }

  /** Splitting lines joined with "\n" gives them back, provided none holds
      a break and the last is not empty (a trailing "\n" starts no line). */
  lemma {:induction false} SplitLinesJoin(lines: seq<string>)
    requires lines != []
    requires forall k :: 0 <= k < |lines| ==> NoLineBreak(lines[k])
    requires lines[|lines| - 1] != []
    ensures SplitLines(JoinWith(lines, '\n')) == lines
    decreases |lines|
  {
    var s := JoinWith(lines, '\n');
    var p := lines[0];
    if |lines| == 1 {
      assert s == p;
      assert LineEnd(s) == |s|;
      assert FirstLine(s) == s;
      assert AfterFirstLine(s) == [];
    } else {
      var rest := JoinWith(lines[1..], '\n');
      assert s == p + ['\n'] + rest;
      FirstLineOfJoin(p, rest);
      SplitLinesJoin(lines[1..]);
    }
  }

  /** Number of leading whitespace characters. */
  function LeadingSpace(s: string): (n: nat)
    ensures n <= |s|
    ensures forall j :: 0 <= j < n ==> IsSpace(s[j])
    ensures n < |s| ==> !IsSpace(s[n])
  {
    if s == [] || !IsSpace(s[0]) then 0 else 1 + LeadingSpace(s[1..])
  }

  /** Number of trailing whitespace characters. */
  function TrailingSpace(s: string): (n: nat)
    ensures n <= |s|
    ensures forall j :: |s| - n <= j < |s| ==> IsSpace(s[j])
    ensures n < |s| ==> !IsSpace(s[|s| - 1 - n])
  {
    if s == [] || !IsSpace(s[|s| - 1]) then 0 else 1 + TrailingSpace(s[..|s| - 1])
  }

  predicate IsStripped(t: string) {
    t == [] || (NotSpace(t[0]) && NotSpace(t[|t| - 1]))
  }

  /** `str.strip()`: the result is the piece of the input left once the
      whitespace before it and after it is cut off, it neither starts nor
      ends with whitespace, and a string already stripped is returned as it
      is. */
  function Strip(s: string): (r: string)
    ensures IsStripped(r)
    ensures LeadingSpace(s) + |r| <= |s| && r == s[LeadingSpace(s)..LeadingSpace(s) + |r|]
    ensures forall k :: LeadingSpace(s) + |r| <= k < |s| ==> IsSpace(s[k])
    ensures IsStripped(s) ==> r == s
  {
    var a := LeadingSpace(s);
    var t := s[a..];
    TrimmedEnds(s);
    TrimmedStripped(s);
    t[..|t| - TrailingSpace(t)]
  }

  /** What the two trims leave is stripped, and everything after it is
      whitespace. */
  lemma TrimmedEnds(s: string)
    ensures var t := s[LeadingSpace(s)..];
      var r := t[..|t| - TrailingSpace(t)];
      && IsStripped(r)
      && forall k :: LeadingSpace(s) + |r| <= k < |s| ==> IsSpace(s[k])
  {
    TrimmedTail(s);
    TrimmedStrippedEnds(s);
  }

  lemma TrimmedTail(s: string)
    ensures var t := s[LeadingSpace(s)..];
      forall k :: LeadingSpace(s) + |t| - TrailingSpace(t) <= k < |s| ==> IsSpace(s[k])
  {
    var a := LeadingSpace(s);
    var t := s[a..];
    forall k | a + |t| - TrailingSpace(t) <= k < |s|
      ensures IsSpace(s[k])
    {
      assert s[k] == t[k - a];
    }
  }

  lemma TrimmedStrippedEnds(s: string)
    ensures var t := s[LeadingSpace(s)..];
      IsStripped(t[..|t| - TrailingSpace(t)])
  {
    var a := LeadingSpace(s);
    var t := s[a..];
    var b := TrailingSpace(t);
    var m := |t| - b;
    if m > 0 {
      assert a < |s|;
      assert t[0] == s[a];
      assert b < |t| && t[m - 1] == t[|t| - 1 - b];
      EndsStripped(t, m);
    }
  }

  /** A prefix of `t` whose first and last characters are not whitespace
      is stripped. */
  lemma EndsStripped(t: string, m: nat)
    requires 0 < m <= |t|
    requires NotSpace(t[0]) && NotSpace(t[m - 1])
    ensures IsStripped(t[..m])
  {
    assert t[..m][0] == t[0];
    assert t[..m][m - 1] == t[m - 1];
  }

  /** A stripped string has nothing to trim. */
  lemma TrimmedStripped(s: string)
    ensures IsStripped(s) ==> var t := s[LeadingSpace(s)..]; t[..|t| - TrailingSpace(t)] == s
  {
    if s != [] && IsStripped(s) {
      assert LeadingSpace(s) == 0;
      assert s[0..] == s;
      assert TrailingSpace(s) == 0;
    }
  }

  /** Stripping removes whitespace only: the other characters are all kept,
      in order. */
  lemma StripKeepsText(s: string)
    ensures Keep(Strip(s), NotSpace) == Keep(s, NotSpace)
  {
    KeepInner(s, LeadingSpace(s), LeadingSpace(s) + |Strip(s)|, NotSpace);
  }

  /** `[line.strip() for line in lines]`. */
  function StripEach(lines: seq<string>): (r: seq<string>)
    ensures |r| == |lines|
    ensures forall k :: 0 <= k < |r| ==> r[k] == Strip(lines[k])
  {
    seq(|lines|, k requires 0 <= k < |lines| => Strip(lines[k]))
  }

  /** The last pass as a whole. */
  function CleanLines(t: string): (r: string)
    ensures t == [] ==> r == []
  {
    JoinWith(StripEach(SplitLines(t)), '\n')
  }

  lemma StripEachCons(line: string, lines: seq<string>)
    ensures StripEach([line] + lines) == [Strip(line)] + StripEach(lines)
  {
    var l := StripEach([line] + lines);
    var r := [Strip(line)] + StripEach(lines);
    assert |l| == |r|;
    forall k | 0 <= k < |l|
      ensures l[k] == r[k]
    {
      if k > 0 {
        assert ([line] + lines)[k] == lines[k - 1];
      }
    }
  }

  lemma JoinCons(part: string, parts: seq<string>, sep: char)
    ensures JoinWith([part] + parts, sep) == if parts == [] then part else part + [sep] + JoinWith(parts, sep)
  {
    assert ([part] + parts)[1..] == parts;
  }

  /** One line at a time: the first line stripped, then, when text remains
      after its break, "\n" and the rest cleaned. */
  lemma CleanLinesUnfold(t: string)
    requires t != []
    ensures CleanLines(t) == if AfterFirstLine(t) == [] then Strip(FirstLine(t))
                             else Strip(FirstLine(t)) + "\n" + CleanLines(AfterFirstLine(t))
  {
    StripEachCons(FirstLine(t), SplitLines(AfterFirstLine(t)));
    JoinCons(Strip(FirstLine(t)), StripEach(SplitLines(AfterFirstLine(t))), '\n');
  }

  /** Cleaning lines never lengthens the text: each break of one or two
      characters becomes one "\n", and stripping only deletes. */
  lemma {:induction false} CleanLinesShorter(t: string)
    ensures |CleanLines(t)| <= |t|
    decreases |t|
  {
    if t != [] {
      CleanLinesUnfold(t);
      if AfterFirstLine(t) != [] {
        CleanLinesShorter(AfterFirstLine(t));
      }
    }
  }

  /** The first line, stripped, holds only characters of `t` that are not
      line breaks. */
  lemma StrippedLineKeeps(t: string, p: char -> bool)
    requires forall i :: 0 <= i < |t| && !IsLineBreak(t[i]) ==> p(t[i])
    ensures forall j :: 0 <= j < |Strip(FirstLine(t))| ==> p(Strip(FirstLine(t))[j])
  {
    var line := FirstLine(t);
    var a := LeadingSpace(line);
    assert forall j :: 0 <= j < |Strip(line)| ==> Strip(line)[j] == t[a + j];
  }

  /** Joining with "\n" keeps a property both sides and the separator have. */
  lemma JoinLineKeeps(line: string, tail: string, p: char -> bool)
    requires p('\n')
    requires forall j :: 0 <= j < |line| ==> p(line[j])
    requires forall j :: 0 <= j < |tail| ==> p(tail[j])
    ensures forall j :: 0 <= j < |line + "\n" + tail| ==> p((line + "\n" + tail)[j])
  {
    var out := line + "\n" + tail;
    forall j | 0 <= j < |out|
      ensures p(out[j])
    {
      if j < |line| {
        assert out[j] == line[j];
      } else if j > |line| {
        assert out[j] == tail[j - |line| - 1];
      }
    }
  }

  /** Every character of the cleaned text is "\n" or a character of the input
      that is not a line break, so a property of all such characters carries
      over to the output. */
  lemma {:induction false} CleanLinesKeeps(t: string, p: char -> bool)
    requires p('\n')
    requires forall i :: 0 <= i < |t| && !IsLineBreak(t[i]) ==> p(t[i])
    ensures forall i :: 0 <= i < |CleanLines(t)| ==> p(CleanLines(t)[i])
    decreases |t|
  {
    if t != [] {
      CleanLinesUnfold(t);
      StrippedLineKeeps(t, p);
      var rest := AfterFirstLine(t);
      if rest != [] {
        assert forall j :: 0 <= j < |rest| ==> rest[j] == t[|t| - |rest| + j];
        CleanLinesKeeps(rest, p);
        JoinLineKeeps(Strip(FirstLine(t)), CleanLines(rest), p);
      }
    }
  }

  predicate AsciiAllowed(c: char) {
    IsAscii(c) && IsAllowed(c)
  }

  predicate BreakIsNewline(c: char) {
    !IsLineBreak(c) || c == '\n'
  }

  /** The last pass adds no character outside ASCII and the allowed set. */
  lemma CleanLinesAsciiAllowed(t: string)
    requires forall i :: 0 <= i < |t| ==> AsciiAllowed(t[i])
    ensures forall i :: 0 <= i < |CleanLines(t)| ==> AsciiAllowed(CleanLines(t)[i])
  {
    CleanLinesKeeps(t, AsciiAllowed);
  }

  /** After the last pass every line break is a "\n". */
  lemma CleanLinesBreaks(t: string)
    ensures forall i :: 0 <= i < |CleanLines(t)| ==> BreakIsNewline(CleanLines(t)[i])
  {
    CleanLinesKeeps(t, BreakIsNewline);
  }

  /** A slice of a string without double spaces has none either. */
  lemma NoDoubleSpaceSlice(s: string, a: nat, b: nat)
    requires a <= b <= |s|
    requires NoDoubleSpace(s)
    ensures NoDoubleSpace(s[a..b])
  {
    var u := s[a..b];
    forall j | 0 <= j < |u| - 1
      ensures !(u[j] == ' ' && u[j + 1] == ' ')
    {
      assert u[j] == s[a + j] && u[j + 1] == s[a + j + 1];
    }
  }

  lemma StripNoDoubleSpace(s: string)
    requires NoDoubleSpace(s)
    ensures NoDoubleSpace(Strip(s))
  {
    NoDoubleSpaceSlice(s, LeadingSpace(s), LeadingSpace(s) + |Strip(s)|);
  }

  /** Joining with "\n" cannot put two spaces side by side. */
  lemma JoinLineNoDoubleSpace(line: string, tail: string)
    requires NoDoubleSpace(line) && NoDoubleSpace(tail)
    ensures NoDoubleSpace(line + "\n" + tail)
  {
    var out := line + "\n" + tail;
    forall j | 0 <= j < |out| - 1
      ensures !(out[j] == ' ' && out[j + 1] == ' ')
    {
      if j + 1 < |line| {
        assert out[j] == line[j] && out[j + 1] == line[j + 1];
      } else if j > |line| {
        assert out[j] == tail[j - |line| - 1] && out[j + 1] == tail[j - |line|];
      }
    }
  }

  /** Cleaning lines creates no double space where there was none. */
  lemma {:induction false} CleanLinesNoDoubleSpace(t: string)
    requires NoDoubleSpace(t)
    ensures NoDoubleSpace(CleanLines(t))
    decreases |t|
  {
    if t != [] {
      CleanLinesUnfold(t);
      var line := FirstLine(t);
      var rest := AfterFirstLine(t);
      NoDoubleSpaceSlice(t, 0, |line|);
      assert t[0..|line|] == line;
      StripNoDoubleSpace(line);
      if rest != [] {
        NoDoubleSpaceSlice(t, |t| - |rest|, |t|);
        assert t[|t| - |rest|..|t|] == rest;
        CleanLinesNoDoubleSpace(rest);
        JoinLineNoDoubleSpace(Strip(line), CleanLines(rest));
      }
    }
  }

  /** Read back line by line, the cleaned text has no line that starts or
      ends with whitespace. */
  lemma CleanLinesStripped(t: string)
    ensures var lines := SplitOn(CleanLines(t), '\n');
            forall k :: 0 <= k < |lines| ==> IsStripped(lines[k])
  {
    var parts := StripEach(SplitLines(t));
    if parts == [] {
      assert CleanLines(t) == "";
      assert SplitOn("", '\n') == [""];
    } else {
      forall k | 0 <= k < |parts|
        ensures '\n' !in parts[k]
      {
        var line := SplitLines(t)[k];
        assert NoLineBreak(line);
        forall j | 0 <= j < |parts[k]|
          ensures parts[k][j] != '\n'
        {
          assert parts[k][j] in line;
        }
      }
      SplitJoin(parts, '\n');
    }
  }

  // ---------------------------------------------------------------------
  // The whole cleaning, in the order data_cleanser.py applies the passes.
  // The phone-number and street-address passes are not part of this model
  // (they stand as the identity here).

  function CleanText(text: string): (r: string)
    ensures |r| <= |text|
  {
    var ascii := AsciiOnly(text);
    var noEmails := RemoveEmails(ascii);
    var collapsed := CollapseSpaces(noEmails);
    var allowed := KeepAllowed(collapsed);
    CleanLinesShorter(allowed);
    CleanLines(allowed)
  }

  /** What `clean_text` promises of its result `r` for input `text`: only
      ASCII characters from the allowed set remain (so no '@'), lines are
      separated by "\n" only, no line starts or ends with whitespace, and
      the text never grows. */
  predicate IsCleaned(text: string, r: string) {
    && |r| <= |text|
    && (forall i :: 0 <= i < |r| ==> IsAscii(r[i]) && IsAllowed(r[i]))
    && '@' !in r
    && (forall i :: 0 <= i < |r| ==> IsLineBreak(r[i]) ==> r[i] == '\n')
    && (forall k :: 0 <= k < |SplitOn(r, '\n')| ==> IsStripped(SplitOn(r, '\n')[k]))
  }

  /** The last pass applied to text whose characters are all ASCII and
      allowed gives a cleaned text. */
  lemma CleanLinesCleans(text: string, t: string)
    requires |t| <= |text|
    requires forall i :: 0 <= i < |t| ==> IsAscii(t[i]) && IsAllowed(t[i])
    ensures IsCleaned(text, CleanLines(t))
  {
    var r := CleanLines(t);
    CleanLinesShorter(t);
    CleanLinesAsciiAllowed(t);
    CleanLinesBreaks(t);
    CleanLinesStripped(t);
    NoAtWhenAllowed(r);
  }

  /** '@' is not an allowed character. */
  lemma NoAtWhenAllowed(r: string)
    requires forall i :: 0 <= i < |r| ==> IsAscii(r[i]) && IsAllowed(r[i])
    ensures '@' !in r
  {
    assert !IsAllowed('@');
  }

  /** `clean_text` keeps its promises on every input. */
  lemma CleanTextFacts(text: string)
    ensures IsCleaned(text, CleanText(text))
  {
    var ascii := AsciiOnly(text);
    var noEmails := RemoveEmails(ascii);
    var collapsed := CollapseSpaces(noEmails);
    var allowed := KeepAllowed(collapsed);
    KeepSatisfies(text, IsAscii);
    KeepSatisfies(collapsed, IsAllowed);
    RemoveEmailsPreserves(ascii, IsAscii);
    CollapsePreserves(noEmails, IsAscii);
    KeepPreserves(collapsed, IsAllowed, IsAscii);
    CleanLinesCleans(text, allowed);
  }

  /** Text without an '@' holds no address and passes the email pass
      unchanged. */
  lemma {:induction false} RemoveEmailsWithoutAt(s: string)
    requires '@' !in s
    ensures RemoveEmails(s) == s
    decreases |s|
  {
    if s != [] {
      assert !EmailMatchAt(s);
      RemoveEmailsWithoutAt(s[1..]);
    }
  }

  /** The space collapse runs before the filter, so deleting a character
      that stood between two spaces leaves them side by side: "R & D"
      becomes "R  D". */
  lemma CleanTextLeavesDoubleSpace()
    ensures CleanText("R & D") == "R  D"
    ensures !NoDoubleSpace(CleanText("R & D"))
  {
    ExampleEarlyPasses();
    FilterInExample();
    ExampleLastPass();
    assert "R  D"[1] == ' ' && "R  D"[2] == ' ';
  }

  lemma ExampleEarlyPasses()
    ensures CollapseSpaces(RemoveEmails(AsciiOnly("R & D"))) == "R & D"
  {
    var s := "R & D";
    KeepAll(s, IsAscii);
    RemoveEmailsWithoutAt(s);
    assert NoDoubleSpace(s) by {
      forall i | 0 <= i < |s| - 1
        ensures !(s[i] == ' ' && s[i + 1] == ' ')
      {
      }
    }
    CollapseFixpoint(s);
  }

  lemma ExampleLastPass()
    ensures CleanLines("R  D") == "R  D"
  {
    var r := "R  D";
    assert NoLineBreak(r) by {
      forall j | 0 <= j < |r|
        ensures !IsLineBreak(r[j])
      {
        assert r[j] in {'R', ' ', 'D'};
      }
    }
    assert IsStripped(r) by {
      assert r[0] == 'R' && r[|r| - 1] == 'D';
    }
    CleanLinesOneLine(r);
  }

  lemma FilterInExample()
    ensures KeepAllowed("R & D") == "R  D"
  {
    assert Keep("R & D", IsAllowed) == "R" + Keep(" & D", IsAllowed);
    assert Keep(" & D", IsAllowed) == " " + Keep("& D", IsAllowed);
    assert Keep("& D", IsAllowed) == Keep(" D", IsAllowed);
    assert Keep(" D", IsAllowed) == " " + Keep("D", IsAllowed);
    assert Keep("D", IsAllowed) == "D" + Keep("", IsAllowed);
  }

  /** A non-empty text without line breaks is one line, stripped. */
  lemma CleanLinesOneLine(t: string)
    requires t != [] && NoLineBreak(t)
    ensures CleanLines(t) == Strip(t)
  {
    CleanLinesUnfold(t);
    assert LineEnd(t) == |t|;
    assert FirstLine(t) == t;
  }

  /** The cleaning with the collapse moved after the filter, as the comment
      at data_cleanser.py:37 and the test's "no double space" expectation
      require. */
  function CleanTextCollapsingLast(text: string): string {
    var ascii := AsciiOnly(text);
    var noEmails := RemoveEmails(ascii);
    var allowed := KeepAllowed(noEmails);
    var collapsed := CollapseSpaces(allowed);
    CleanLines(collapsed)
  }

  /** With the collapse last the result is still cleaned and, in addition,
      no two spaces are adjacent anywhere in it. */
  lemma CleanTextCollapsingLastFacts(text: string)
    ensures IsCleaned(text, CleanTextCollapsingLast(text))
    ensures NoDoubleSpace(CleanTextCollapsingLast(text))
  {
    var ascii := AsciiOnly(text);
    var noEmails := RemoveEmails(ascii);
    var allowed := KeepAllowed(noEmails);
    var collapsed := CollapseSpaces(allowed);
    KeepSatisfies(text, IsAscii);
    KeepSatisfies(noEmails, IsAllowed);
    RemoveEmailsPreserves(ascii, IsAscii);
    KeepPreserves(noEmails, IsAllowed, IsAscii);
    CollapsePreserves(allowed, AsciiAllowed);
    CleanLinesCleans(text, collapsed);
    CleanLinesNoDoubleSpace(collapsed);
  }
}
