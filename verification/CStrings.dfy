/**
 The C library's string searching and splitting, as functions on `string`:
 `strspn`, `strcspn`, `strstr` and `strtok` (sections 7.21.5.3 to 7.21.5.8 of C99),
 and `getline`.  A string here stands for the characters before the terminating NUL.
 */
module CStrings {
  import opened Options
  import opened Sequences

  /** `strspn`: the length of the longest prefix made of characters of `set`. */
  function StrSpn(s: string, accept: string): (n: nat)
    ensures n <= |s|
    ensures forall i | 0 <= i < n :: s[i] in accept
    ensures n < |s| ==> s[n] !in accept
  {
    if s != [] && s[0] in accept then 1 + StrSpn(s[1..], accept) else 0
  }

  /** `strcspn`: the index of the first character that is in `reject`, or `|s|`. */
  function StrCSpn(s: string, reject: string): (n: nat)
    ensures n <= |s|
    ensures forall i | 0 <= i < n :: s[i] !in reject
    ensures n < |s| ==> s[n] in reject
  {
    if s != [] && s[0] !in reject then 1 + StrCSpn(s[1..], reject) else 0
  }

  predicate OccursAt(s: string, pattern: string, i: nat) {
    i + |pattern| <= |s| && s[i..i + |pattern|] == pattern
  }

  /** `strstr(s, pattern) != NULL`. */
  predicate Contains(s: string, pattern: string) {
    exists i: nat | i <= |s| :: OccursAt(s, pattern, i)
  }

  /** One `strtok` call: the token found, and the text the next call (on `NULL`) goes on with. */
  function StrTok(s: string, delims: string): (r: (Option<string>, string))
    ensures r.0.Some? ==> r.0.value != [] && |r.1| < |s|
    ensures r.0.Some? ==> forall c | c in r.0.value :: c !in delims && c in s
  {
    var t := s[StrSpn(s, delims)..];
    if t == [] then (None, [])
    else
      var n := StrCSpn(t, delims);
      (Some(t[..n]), if n < |t| then t[n + 1..] else [])
  }

  /** The lines `getline` returns one after the other: each up to and including its newline. */
  function Lines(text: string): seq<string> {
    if text == [] then []
    else
      var n := StrCSpn(text, "\n");
      if n == |text| then [text] else [text[..n + 1]] + Lines(text[n + 1..])
  }

  /** A string that `getline` can return: not empty, a newline at most at its end. */
  predicate IsLine(s: string) {
    s != [] && '\n' !in s[..|s| - 1]
  }

  /** A line that was ended by its newline. */
  predicate IsFullLine(s: string) {
    IsLine(s) && s[|s| - 1] == '\n'
  }

  function Flatten(parts: seq<string>): string {
    if parts == [] then [] else parts[0] + Flatten(parts[1..])
  }

  lemma FlattenCons(part: string, parts: seq<string>)
    ensures Flatten([part] + parts) == part + Flatten(parts)
  {
    assert ([part] + parts)[1..] == parts;
  }

  lemma {:induction false} FlattenAppend(a: seq<string>, b: seq<string>)
    ensures Flatten(a + b) == Flatten(a) + Flatten(b)
  {
    if a == [] {
      assert a + b == b;
    } else {
      FlattenAppend(a[1..], b);
      HeadOfAppend(a, b);
      ConcatAssociates(a[0], Flatten(a[1..]), Flatten(b));
    }
  }

  lemma LinesStep(text: string, n: nat)
    requires text != "" && n == StrCSpn(text, "\n")
    ensures n == |text| ==> Lines(text) == [text]
    ensures n < |text| ==> Lines(text) == [text[..n + 1]] + Lines(text[n + 1..])
  {
    hide StrCSpn;
  }

  lemma PieceIsLine(text: string)
    requires text != ""
    ensures var n := StrCSpn(text, "\n"); IsLine(if n == |text| then text else text[..n + 1])
  {
    hide StrCSpn;
    var n := StrCSpn(text, "\n");
    assert forall i | 0 <= i < n :: text[i] != '\n';
    assert n < |text| ==> text[..n + 1][..n] == text[..n];
  }

  /** Every string `getline` returns is a line, and together they are the whole file. */
  lemma {:induction false} LinesPartition(text: string)
    ensures Flatten(Lines(text)) == text
    ensures forall l | l in Lines(text) :: IsLine(l)
  {
    hide Lines, Flatten, IsLine;
    if text == "" {
      NoLines();
      NoParts();
    } else {
      var n := StrCSpn(text, "\n");
      LinesStep(text, n);
      PieceIsLine(text);
      if n == |text| {
        NoParts();
        FlattenCons(text, []);
        assert [text] + [] == [text] && text + "" == text;
      } else {
        LinesPartition(text[n + 1..]);
        FlattenCons(text[..n + 1], Lines(text[n + 1..]));
        assert text[..n + 1] + text[n + 1..] == text;
      }
    }
  }

  lemma NoParts()
    ensures Flatten([]) == ""
  {
  }

  lemma {:induction false} LinesCons(line: string, rest: string)
    requires IsFullLine(line)
    ensures Lines(line + rest) == [line] + Lines(rest)
  {
    var text := line + rest;
    var n := StrCSpn(text, "\n");
    assert text[|line| - 1] == '\n';
    forall i | 0 <= i < |line| - 1 ensures text[i] != '\n' {
      assert text[i] == line[..|line| - 1][i];
    }
    assert n == |line| - 1;
    assert text[..n + 1] == line;
    assert text[n + 1..] == rest;
  }

  predicate EndsLine(text: string) {
    text == "" || text[|text| - 1] == '\n'
  }

  /** Text behind a newline has its own lines. */
  lemma {:induction false} LinesAppend(text: string, behind: string)
    requires EndsLine(text)
    ensures Lines(text + behind) == Lines(text) + Lines(behind)
    decreases |text|
  {
    hide Lines;
    if text == "" {
      assert text + behind == behind;
      NoLines();
    } else {
      var n := StrCSpn(text, "\n");
      assert text[|text| - 1] == '\n';
      var line, rest := text[..n + 1], text[n + 1..];
      assert line[..|line| - 1] == text[..n];
      assert text == line + rest && text + behind == line + (rest + behind);
      LinesAppend(rest, behind);
      LinesCons(line, rest);
      LinesCons(line, rest + behind);
    }
  }

  lemma NoLines()
    ensures Lines("") == []
  {
  }

  lemma OneLine(line: string)
    requires IsFullLine(line)
    ensures Lines(line) == [line]
  {
    hide Lines, IsFullLine;
    assert line + "" == line;
    LinesCons(line, "");
    NoLines();
  }

  /** The first line is the beginning of the text. */
  lemma FirstLine(text: string)
    requires |text| > 0
    ensures Lines(text) != [] && Lines(text)[0] <= text
  {
  }

  /** Reading back a file written line by line gives those lines. */
  lemma {:induction false} LinesOfFlatten(parts: seq<string>)
    requires forall p | p in parts :: IsFullLine(p)
    ensures Lines(Flatten(parts)) == parts
  {
    if parts != [] {
      LinesOfFlatten(parts[1..]);
      LinesCons(parts[0], Flatten(parts[1..]));
    }
  }

  /** `strcspn` stops at the first rejected character after an accepted prefix. */
  lemma StrCSpnAt(prefix: string, c: char, rest: string, reject: string)
    requires c in reject
    requires forall x | x in prefix :: x !in reject
    ensures StrCSpn(prefix + [c] + rest, reject) == |prefix|
  {
    var s := prefix + [c] + rest;
    var n := StrCSpn(s, reject);
    assert s[|prefix|] == c;
    forall i | 0 <= i < |prefix| ensures s[i] !in reject {
      assert s[i] == prefix[i];
    }
  }

  /** `strtok` on a token that is followed by a delimiter. */
  lemma StrTokAt(token: string, c: char, rest: string, delims: string)
    requires token != [] && c in delims
    requires forall x | x in token :: x !in delims
    ensures StrTok(token + [c] + rest, delims) == (Some(token), rest)
  {
    var s := token + [c] + rest;
    assert s[0] == token[0];
    assert StrSpn(s, delims) == 0;
    assert s[0..] == s;
    StrCSpnAt(token, c, rest, delims);
    assert s[..|token|] == token;
    assert s[|token| + 1..] == rest;
  }

  /** All the tokens of a text: the longest stretches without delimiters, in order. */
  function Tokens(s: string, delims: string): seq<string>
    decreases |s|
  {
    if s == [] then []
    else if s[0] in delims then Tokens(s[1..], delims)
    else
      var n := StrCSpn(s, delims);
      [s[..n]] + Tokens(s[n..], delims)
  }

  /** The first token, and the tokens behind the delimiter that ends it. */
  lemma TokensStart(s: string, delims: string)
    requires s != [] && s[0] !in delims
    ensures var n := StrCSpn(s, delims);
            Tokens(s, delims) == [s[..n]] + Tokens(if n < |s| then s[n + 1..] else [], delims)
  {
    hide StrCSpn;
    var n := StrCSpn(s, delims);
    if n < |s| {
      assert s[n..][0] == s[n] && s[n..][1..] == s[n + 1..];
    } else {
      assert s[n..] == [];
    }
  }

  lemma {:induction false} TokensBehindDelims(s: string, delims: string)
    ensures Tokens(s, delims) == Tokens(s[StrSpn(s, delims)..], delims)
  {
    if s != [] && s[0] in delims {
      TokensBehindDelims(s[1..], delims);
      assert s[1..][StrSpn(s[1..], delims)..] == s[StrSpn(s, delims)..];
    } else {
      assert s[0..] == s;
    }
  }

  /** `strtok` takes the tokens one after the other. */
  lemma StrTokTakesToken(s: string, delims: string)
    ensures var (token, rest) := StrTok(s, delims);
            if Tokens(s, delims) == [] then token == None && Tokens(rest, delims) == []
            else token == Some(Tokens(s, delims)[0]) && Tokens(rest, delims) == Tokens(s, delims)[1..]
  {
    hide StrSpn, StrCSpn, Tokens;
    NoTokens(delims);
    TokensBehindDelims(s, delims);
    var t := s[StrSpn(s, delims)..];
    if t != [] {
      TokensStart(t, delims);
    }
  }

  lemma NoTokens(delims: string)
    ensures Tokens("", delims) == []
  {
  }

  lemma OccursChar(s: string, pattern: string, i: nat, k: nat)
    requires OccursAt(s, pattern, i) && k < |pattern|
    ensures s[i + k] == pattern[k]
  {
    assert s[i..i + |pattern|][k] == s[i + k];
  }

  /** The characters around an occurrence, found in another string, are an occurrence there. */
  lemma OccursElsewhere(s: string, i: nat, t: string, j: nat, pattern: string)
    requires OccursAt(s, pattern, i) && i + |pattern| <= |s| && j + |pattern| <= |t|
    requires forall k | j <= k < j + |pattern| :: t[k] == s[k - j + i]
    ensures OccursAt(t, pattern, j) && Contains(t, pattern)
  {
    forall k | 0 <= k < |pattern| ensures t[j + k] == pattern[k] {
      OccursChar(s, pattern, i, k);
    }
    assert t[j..j + |pattern|] == pattern;
    assert OccursAt(t, pattern, j);
  }

  /** A pattern that avoids `c` occurs across a separator `c` only on one of its sides. */
  lemma ContainsAcross(a: string, c: char, b: string, pattern: string)
    requires pattern != [] && c !in pattern
    ensures Contains(a + [c] + b, pattern) <==> Contains(a, pattern) || Contains(b, pattern)
  {
    hide OccursAt;
    var s := a + [c] + b;
    if Contains(s, pattern) {
      var i: nat :| i <= |s| && OccursAt(s, pattern, i);
      OccursFits(s, pattern, i);
      if i + |pattern| <= |a| {
        OccursElsewhere(s, i, a, i, pattern);
      } else if |a| < i {
        OccursElsewhere(s, i, b, i - |a| - 1, pattern);
      } else {
        OccursChar(s, pattern, i, |a| - i);
      }
    }
    if Contains(a, pattern) {
      var i: nat :| i <= |a| && OccursAt(a, pattern, i);
      OccursFits(a, pattern, i);
      OccursElsewhere(a, i, s, i, pattern);
    }
    if Contains(b, pattern) {
      var i: nat :| i <= |b| && OccursAt(b, pattern, i);
      OccursFits(b, pattern, i);
      OccursElsewhere(b, i, s, i + |a| + 1, pattern);
    }
  }

  lemma OccursFits(s: string, pattern: string, i: nat)
    requires OccursAt(s, pattern, i)
    ensures i + |pattern| <= |s|
  {
  }

  /** A string without the pattern's first character does not contain the pattern. */
  lemma LacksFirst(s: string, pattern: string)
    requires pattern != [] && pattern[0] !in s
    ensures !Contains(s, pattern)
  {
    if Contains(s, pattern) {
      var i: nat :| i <= |s| && OccursAt(s, pattern, i);
      OccursChar(s, pattern, i, 0);
    }
  }

  /** A substring contains no pattern that the whole does not contain. */
  lemma ContainsMonotone(s: string, lo: nat, hi: nat, pattern: string)
    requires lo <= hi <= |s|
    requires Contains(s[lo..hi], pattern)
    ensures Contains(s, pattern)
  {
    var i: nat :| i <= |s[lo..hi]| && OccursAt(s[lo..hi], pattern, i);
    OccursElsewhere(s[lo..hi], i, s, lo + i, pattern);
  }
}
