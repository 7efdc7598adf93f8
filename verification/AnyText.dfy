/** What the replaying manager reads out of any text (plugins/replay/replay.c), said by its tokens and commas. */
module AnyText {
  import opened Options
  import opened Sequences
  import opened CStrings
  import opened Numerals
  import opened Delivery
  import opened Transcript

  // ---------- Numbers of markers ----------

  /** The number is that of the first token that starts with one. */
  lemma {:induction false} FirstNumberExactly(s: string)
    ensures var tokens := Tokens(s, TIC_DELIMS);
            var n := FirstNumber(s);
            if n.None? then forall i | 0 <= i < |tokens| :: StrToUll(tokens[i]).None?
            else exists i :: 0 <= i < |tokens| && StrToUll(tokens[i]) == n
                             && forall j | 0 <= j < i :: StrToUll(tokens[j]).None?
    decreases |s|
  {
    hide StrTok, StrToUll, Tokens;
    StrTokTakesToken(s, TIC_DELIMS);
    var (token, rest) := StrTok(s, TIC_DELIMS);
    var tokens := Tokens(s, TIC_DELIMS);
    if token.Some? {
      assert tokens[0] == token.value;
      if StrToUll(token.value).None? {
        FirstNumberExactly(rest);
        if FirstNumber(rest).Some? {
          var i :| 0 <= i < |tokens[1..]| && StrToUll(tokens[1..][i]) == FirstNumber(rest)
                   && forall j | 0 <= j < i :: StrToUll(tokens[1..][j]).None?;
          assert StrToUll(tokens[i + 1]) == FirstNumber(s);
          forall j | 0 <= j < i + 1 ensures StrToUll(tokens[j]).None? {
            if j > 0 {
              assert tokens[j] == tokens[1..][j - 1];
            }
          }
        } else {
          forall i | 0 <= i < |tokens| ensures StrToUll(tokens[i]).None? {
            if i > 0 {
              assert tokens[i] == tokens[1..][i - 1];
            }
          }
        }
      }
    }
  }

  /** A marker's number is the first one behind the first token of its line. */
  lemma TicNumberExactly(line: string)
    ensures var tokens := Tokens(line, TIC_DELIMS);
            var n := TicNumber(line);
            if n.None? then forall i | 1 <= i < |tokens| :: StrToUll(tokens[i]).None?
            else exists i :: 1 <= i < |tokens| && StrToUll(tokens[i]) == n
                             && forall j | 1 <= j < i :: StrToUll(tokens[j]).None?
  {
    hide StrTok, StrToUll, Tokens, FirstNumber;
    StrTokTakesToken(line, TIC_DELIMS);
    var rest := StrTok(line, TIC_DELIMS).1;
    FirstNumberExactly(rest);
    var tokens, behind := Tokens(line, TIC_DELIMS), Tokens(rest, TIC_DELIMS);
    if FirstNumber(rest).Some? {
      var i :| 0 <= i < |behind| && StrToUll(behind[i]) == FirstNumber(rest)
               && forall j | 0 <= j < i :: StrToUll(behind[j]).None?;
      assert StrToUll(tokens[i + 1]) == TicNumber(line);
      assert forall j | 1 <= j < i + 1 :: tokens[j] == behind[j - 1];
    } else {
      assert forall i | 1 <= i < |tokens| :: tokens[i] == behind[i - 1];
    }
  }

  // ---------- Lines ----------

  /** The text behind the first comma. */
  function BehindComma(s: string): string {
    if s == [] then [] else if s[0] == ',' then s[1..] else BehindComma(s[1..])
  }

  function Commas(s: string): nat {
    if s == [] then 0 else (if s[0] == ',' then 1 else 0) + Commas(s[1..])
  }

  lemma {:induction false} CommaSplits(s: string)
    ensures var n := StrCSpn(s, ",");
            if n == |s| then Commas(s) == 0
            else BehindComma(s) == s[n + 1..] && Commas(s) == 1 + Commas(s[n + 1..])
  {
    if s != [] && s[0] != ',' {
      CommaSplits(s[1..]);
      var n := StrCSpn(s[1..], ",");
      assert StrCSpn(s, ",") == n + 1;
      if n < |s[1..]| {
        assert s[1..][n + 1..] == s[n + 2..];
      }
    } else if s != [] {
      assert StrCSpn(s, ",") == 0;
    }
  }

  /**
   Which lines of the tic part are markers, faults and noise: a line with `tic#` is a marker; any
   other one is a fault if and only if it has two commas and a number behind the second one.
   */
  lemma ClassifyExactly(line: string)
    ensures Classify(line).Mark? <==> Contains(line, "tic#")
    ensures Classify(line).Noise? <==>
              !Contains(line, "tic#") && (Commas(line) < 2 || StrToUll(BehindComma(BehindComma(line))).None?)
  {
    hide StrToUll, Contains, TicNumber, StrCSpn, Commas, BehindComma;
    CommaSplits(line);
    var n := StrCSpn(line, ",");
    if n < |line| {
      CommaSplits(line[n + 1..]);
    }
  }

  // ---------- The node table ----------

  lemma {:induction false} ComponentsExactly(rest: string, n: nat, taken: seq<string>)
    ensures var tokens := Tokens(rest, FIELD_DELIMS);
            ParseComponents(rest, n, taken) == if n <= |tokens| then Ok(taken + tokens[..n]) else Err(NoField)
    decreases n
  {
    hide StrTok, Tokens;
    var tokens := Tokens(rest, FIELD_DELIMS);
    if n == 0 {
      assert taken + tokens[..0] == taken;
    } else {
      StrTokTakesToken(rest, FIELD_DELIMS);
      var (token, rest') := StrTok(rest, FIELD_DELIMS);
      if token.Some? {
        ComponentsExactly(rest', n - 1, taken + [token.value]);
        if n <= |tokens| {
          assert [tokens[0]] + tokens[1..][..n - 1] == tokens[..n];
          assert taken + [tokens[0]] + tokens[1..][..n - 1] == taken + tokens[..n];
        }
      }
    }
  }

  /** A node's line: name, number of components, that many components; what follows is ignored. */
  lemma ParseNodeExactly(line: string)
    ensures var tokens := Tokens(line, FIELD_DELIMS);
            var n := if |tokens| < 2 then 0 else StrToUll(tokens[1]).GetOr(0) % TWO_TO_32;
            match ParseNode(line)
            case Err(e) => e == (if tokens == [] then NoName else NoField) && |tokens| < 2 + n
            case Ok(node) =>
              |tokens| >= 2 + n && node.name == tokens[0] && node.components == tokens[2..2 + n]
  {
    hide StrTok, StrToUll, Tokens, ParseComponents;
    StrTokTakesToken(line, FIELD_DELIMS);
    var tokens := Tokens(line, FIELD_DELIMS);
    var (name, rest) := StrTok(line, FIELD_DELIMS);
    if name.Some? {
      StrTokTakesToken(rest, FIELD_DELIMS);
      var (count, rest') := StrTok(rest, FIELD_DELIMS);
      if count.Some? {
        assert tokens[1] == tokens[1..][0] == count.value;
        assert Tokens(rest', FIELD_DELIMS) == tokens[1..][1..] == tokens[2..];
        var n := StrToUll(count.value).GetOr(0) % TWO_TO_32;
        ComponentsExactly(rest', n, []);
        ParseComponentsLength(rest', n, []);
        if n <= |tokens[2..]| {
          assert [] + tokens[2..][..n] == tokens[2..2 + n];
        }
      }
    }
  }

  /** The i-th line is the first that is missing or no node, and that is the error. */
  predicate FirstFailure(parsed: seq<Result<NodeInfo, OpenError>>, i: nat, e: OpenError) {
    && i <= |parsed| && (forall j | 0 <= j < i :: parsed[j].Ok?)
    && if i < |parsed| then parsed[i] == Err(e) else e == NoLine
  }

  /** One of the first `n` lines is missing or no node. */
  predicate Fails(parsed: seq<Result<NodeInfo, OpenError>>, n: nat, e: OpenError) {
    exists i | 0 <= i < n :: FirstFailure(parsed, i, e)
  }

  lemma {:induction false} TakeNodesExactly(parsed: seq<Result<NodeInfo, OpenError>>, n: nat, taken: seq<NodeInfo>)
    ensures match TakeNodes(parsed, n, taken)
            case Ok(nodes) =>
              && n <= |parsed| && |nodes| == |taken| + n && nodes[..|taken|] == taken
              && forall i | 0 <= i < n :: parsed[i] == Ok(nodes[|taken| + i])
            case Err(e) => Fails(parsed, n, e)
    decreases n
  {
    if n == 0 {
      assert taken[..|taken|] == taken;
    } else if parsed == [] || parsed[0].Err? {
      assert FirstFailure(parsed, 0, if parsed == [] then NoLine else parsed[0].error);
    } else {
      var more := taken + [parsed[0].value];
      TakeNodesExactly(parsed[1..], n - 1, more);
      match TakeNodes(parsed[1..], n - 1, more)
      case Ok(nodes) =>
        assert nodes[|taken|] == nodes[..|more|][|taken|];
        assert nodes[..|taken|] == nodes[..|more|][..|taken|];
        forall i | 0 <= i < n ensures parsed[i] == Ok(nodes[|taken| + i]) {
          if i > 0 {
            assert parsed[i] == parsed[1..][i - 1];
          }
        }
      case Err(e) =>
        var i :| 0 <= i < n - 1 && FirstFailure(parsed[1..], i, e);
        assert forall j | 0 <= j < i + 1 :: j == 0 || parsed[j] == parsed[1..][j - 1];
        assert FirstFailure(parsed, i + 1, e);
    }
  }

  /**
   When a file opens: its first line starts with a number, and so many lines follow that are nodes.
   They are the table, and reading goes on behind them. Otherwise the first missing or
   malformed line decides the error.
   */
  lemma ParseTableExactly(lines: seq<string>)
    ensures match ParseTable(lines)
            case Ok((table, rest)) =>
              && lines != [] && StrToUll(lines[0]) == Some(|table|) && |lines| == 1 + |table| + |rest|
              && (forall i | 0 <= i < |table| :: ParseNode(lines[1..][i]) == Ok(table[i]))
              && rest == lines[1 + |table|..]
            case Err(e) =>
              || (lines == [] && e == NoLine)
              || (lines != [] && StrToUll(lines[0]).None? && e == NoCount)
              || (lines != [] && StrToUll(lines[0]).Some?
                  && Fails(Map(ParseNode, lines[1..]), StrToUll(lines[0]).value, e))
  {
    hide ParseNode, StrToUll, TakeNodes, Fails;
    if lines != [] && StrToUll(lines[0]).Some? {
      var parsed, n := Map(ParseNode, lines[1..]), StrToUll(lines[0]).value;
      TakeNodesExactly(parsed, n, []);
      match TakeNodes(parsed, n, [])
      case Ok(nodes) =>
        forall i | 0 <= i < n ensures ParseNode(lines[1..][i]) == Ok(nodes[i]) {
          assert parsed[i] == Ok(nodes[0 + i]);
        }
      case Err(e) =>
    }
  }

  // ---------- What is delivered ----------


  /**
   Over any file that opens, the k-th call delivers the fault lines whose greatest marker so far is
   k, in file order. The line behind the table is different: it counts as a marker already for
   `tic` without `#`, and is never a fault.
   */
  lemma DeliveredExactly(text: string, n: nat, k: nat)
    requires Open(text).Ok? && k < n
    ensures var rest := ParseTable(Lines(text)).value.1;
            Replayed(Open(text).value.1, n)[k]
            == AtTic(if rest == [] || Contains(rest[0], "tic#") then Stamps(Kinds(rest), 0)
                     else if Contains(rest[0], "tic") then Stamps(Kinds(rest[1..]), TicNumber(rest[0]).GetOr(0))
                     else Stamps(Kinds(rest[1..]), 0), k)
  {
    hide ParseTable, Contains, TicNumber, Lines, Stamps, AtTic, Replayed;
    var rest := ParseTable(Lines(text)).value.1;
    RunningMaximum(Open(text).value.1, n, k);
    if rest != [] {
      FirstLineStamps(rest);
    }
  }

  lemma FirstLineStamps(rest: seq<string>)
    requires rest != []
    ensures Contains(rest[0], "tic#") ==>
              && Contains(rest[0], "tic")
              && Stamps(Kinds(rest), 0) == Stamps(Kinds(rest[1..]), TicNumber(rest[0]).GetOr(0))
  {
    hide TicNumber;
    if Contains(rest[0], "tic#") {
      ShorterPattern(rest[0]);
      assert Kinds(rest)[0] == Classify(rest[0]) == Mark(TicNumber(rest[0]).GetOr(0));
      assert Kinds(rest)[1..] == Kinds(rest[1..]);
    }
  }

  lemma ShorterPattern(line: string)
    requires Contains(line, "tic#")
    ensures Contains(line, "tic")
  {
    var i: nat :| i <= |line| && OccursAt(line, "tic#", i);
    assert line[i..i + 3] == line[i..i + 4][..3] == "tic#"[..3] == "tic";
    assert OccursAt(line, "tic", i);
  }
}
