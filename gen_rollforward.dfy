/**
 * The rollforward-table generator's text processing: reading an assembly file
 * line by line, finding its label declarations, splitting a line into tokens at
 * the assembly separators, renaming the tokens that are labels with the `_rf`
 * suffix, and numbering the instruction lines.
 */
module GenRollforward {
  import opened Text

  // Labels
  // ======

  /** `is_label`: at least two characters and a final ':'. */
  predicate IsLabel(s: string)
  {
    |s| >= 2 && s[|s| - 1] == ':'
  }

  /** `label_of_decl`: the string without its last character.  On the empty string
      `size() - 1` wraps round and the whole (empty) string is kept. */
  function LabelOfDecl(s: string): string
  {
    if s == "" then s else s[..|s| - 1]
  }

  /** A label declaration is its label followed by ':', and the label is not empty;
      conversely every nonempty name followed by ':' is a declaration of that name. */
  lemma LabelOfDeclInverse(s: string, l: string)
    ensures IsLabel(s) ==> |LabelOfDecl(s)| >= 1 && LabelOfDecl(s) + ":" == s
    ensures IsLabel(l + ":") <==> |l| >= 1
    ensures LabelOfDecl(l + ":") == l
  {
    if IsLabel(s) {
      assert s == s[..|s| - 1] + [s[|s| - 1]];
    }
    assert (l + ":")[..|l|] == l;
  }

  /** `mk_rollforward_label`. */
  function RollforwardLabel(s: string): string
  {
    s + "_rf"
  }

  // Lines
  // =====

  /** The index of the first `c` in `s`, or `|s|` when there is none. */
  function FirstIndexOf(s: string, c: char): (p: nat)
    ensures p <= |s|
    ensures forall k :: 0 <= k < p ==> s[k] != c
    ensures p < |s| ==> s[p] == c
  {
    if s == "" then 0 else if s[0] == c then 0 else 1 + FirstIndexOf(s[1..], c)
  }

  /** The lines `std::getline` reads from the string: newline-terminated pieces,
      plus the unterminated rest when it is not empty. */
  function GetLines(s: string): seq<string>
    decreases |s|
  {
    if s == "" then []
    else
      var p := FirstIndexOf(s, '\n');
      if p == |s| then [s] else [s[..p]] + GetLines(s[p + 1..])
  }

  /** Each line followed by a newline. */
  function Unlines(ls: seq<string>): string
  {
    if ls == [] then "" else ls[0] + "\n" + Unlines(ls[1..])
  }

  /** The lines hold no newline, and put back together with a newline after each
      they give the text, with a newline added when the text did not end in one. */
  lemma GetLinesUnlines(s: string)
    ensures forall l :: l in GetLines(s) ==> '\n' !in l
    ensures Unlines(GetLines(s)) == if s == "" || s[|s| - 1] == '\n' then s else s + "\n"
  {
    LinesHaveNoNewline(s);
    UnlinesOfGetLines(s);
  }

  lemma {:induction false} LinesHaveNoNewline(s: string)
    ensures forall l :: l in GetLines(s) ==> '\n' !in l
    decreases |s|
  {
    if s != "" {
      var line, rest, split := GetLinesStep(s);
      if split {
        assert |rest| < |s|;
        LinesHaveNoNewline(rest);
        forall l | l in GetLines(s) ensures '\n' !in l {
          if l != line {
            assert l in GetLines(rest);
          }
        }
      }
    }
  }

  lemma {:induction false} UnlinesOfGetLines(s: string)
    ensures Unlines(GetLines(s)) == if s == "" || s[|s| - 1] == '\n' then s else s + "\n"
    decreases |s|
  {
    if s != "" {
      var line, rest, split := GetLinesStep(s);
      if !split {
        UnlinesCons(s, []);
      } else {
        assert |rest| < |s|;
        UnlinesOfGetLines(rest);
        UnlinesCons(line, GetLines(rest));
        if rest == "" {
          assert s == line + "\n";
          assert s[|s| - 1] == '\n';
        } else {
          assert s[|s| - 1] == rest[|rest| - 1];
          if rest[|rest| - 1] == '\n' {
            assert Unlines(GetLines(s)) == line + "\n" + rest;
          } else {
            assert line + "\n" + (rest + "\n") == s + "\n";
          }
        }
      }
    }
  }

  /** The first line of a non-empty text: the whole text when it holds no
      newline, otherwise the text up to the first newline and the rest after it. */
  lemma GetLinesStep(s: string) returns (line: string, rest: string, split: bool)
    requires s != ""
    ensures !split ==> GetLines(s) == [s] && '\n' !in s
    ensures split ==> GetLines(s) == [line] + GetLines(rest) && s == line + "\n" + rest && '\n' !in line
  {
    var p := FirstIndexOf(s, '\n');
    split := p < |s|;
    if split {
      line, rest := s[..p], s[p + 1..];
      assert s == line + "\n" + rest;
      assert forall k :: 0 <= k < |line| ==> line[k] == s[k];
    } else {
      line, rest := s, "";
    }
  }

  /** One step of `Unlines`. */
  lemma UnlinesCons(l: string, ls: seq<string>)
    ensures Unlines([l] + ls) == l + "\n" + Unlines(ls)
  {
    assert ([l] + ls)[1..] == ls;
  }

  /** The instruction lines: those that are not label declarations. */
  function InstrLines(ls: seq<string>): seq<string>
  {
    if ls == [] then []
    else (if IsLabel(ls[0]) then [] else [ls[0]]) + InstrLines(ls[1..])
  }

  /** The labels declared in the lines. */
  function DeclaredLabels(ls: seq<string>): set<string>
  {
    set l | l in ls && IsLabel(l) :: LabelOfDecl(l)
  }

  /** `get_nb_instrs`: the number of lines that do not declare a label. */
  method GetNbInstrs(asm: string) returns (n: nat)
    ensures n == |InstrLines(GetLines(asm))|
  {
    var lines := GetLines(asm);
    n := 0;
    for i := 0 to |lines|
      invariant n + |InstrLines(lines[i..])| == |InstrLines(lines)|
    {
      assert lines[i..][1..] == lines[i + 1..];
      if !IsLabel(lines[i]) {
        n := n + 1;
      }
    }
  }

  /** The label-declaration lines. */
  function LabelLines(ls: seq<string>): seq<string>
  {
    if ls == [] then []
    else (if IsLabel(ls[0]) then [ls[0]] else []) + LabelLines(ls[1..])
  }

  /** Every line is either an instruction line or a label declaration, never both. */
  lemma {:induction false} InstrLinesPartition(ls: seq<string>)
    ensures |InstrLines(ls)| + |LabelLines(ls)| == |ls|
    ensures forall l :: l in InstrLines(ls) <==> l in ls && !IsLabel(l)
    ensures forall l :: l in LabelLines(ls) <==> l in ls && IsLabel(l)
  {
    if ls != [] {
      InstrLinesPartition(ls[1..]);
      assert ls == [ls[0]] + ls[1..];
    }
  }

  /** `mk_label_set`: the labels declared in the text. */
  method MkLabelSet(asm: string) returns (sourceLabels: set<string>)
    ensures sourceLabels == DeclaredLabels(GetLines(asm))
  {
    var lines := GetLines(asm);
    sourceLabels := {};
    for i := 0 to |lines|
      invariant sourceLabels == DeclaredLabels(lines[..i])
    {
      assert lines[..i + 1] == lines[..i] + [lines[i]];
      if IsLabel(lines[i]) {
        sourceLabels := sourceLabels + {LabelOfDecl(lines[i])};
      }
    }
    assert lines[..|lines|] == lines;
  }

  // Tokens
  // ======

  /** `is_asm_lexeme`: the characters that separate tokens. */
  predicate IsAsmLexeme(c: char)
  {
    c == '(' || c == ')' || c == '$' || c == ',' || c == '\t' || c == ' '
  }

  predicate NoSeparator(t: string)
  {
    forall k :: 0 <= k < |t| ==> !IsAsmLexeme(t[k])
  }

  /** The index of the first separator, or `|s|`. */
  function FirstSeparator(s: string): (p: nat)
    ensures p <= |s|
    ensures NoSeparator(s[..p])
    ensures p < |s| ==> IsAsmLexeme(s[p])
  {
    if s == "" then 0 else if IsAsmLexeme(s[0]) then 0 else 1 + FirstSeparator(s[1..])
  }

  /** The tokens of a line: the run before the first separator (possibly empty),
      the separator on its own, then the tokens of the rest; a final run is a token
      only when it is not empty. */
  function Lex(s: string): seq<string>
    decreases |s|
  {
    var p := FirstSeparator(s);
    if p == |s| then (if s == "" then [] else [s])
    else [s[..p], [s[p]]] + Lex(s[p + 1..])
  }

  function Concat(ts: seq<string>): string
  {
    if ts == [] then "" else ts[0] + Concat(ts[1..])
  }

  lemma {:induction false} ConcatSnoc(ts: seq<string>, t: string)
    ensures Concat(ts + [t]) == Concat(ts) + t
  {
    if ts == [] {
      assert ts + [t] == [t];
    } else {
      assert (ts + [t])[1..] == ts[1..] + [t];
      ConcatSnoc(ts[1..], t);
    }
  }

  /** A separator-free prefix is one token when a separator follows it. */
  lemma {:induction false} LexAtSeparator(cur: string, c: char, rest: string)
    requires NoSeparator(cur) && IsAsmLexeme(c)
    ensures Lex(cur + [c] + rest) == [cur, [c]] + Lex(rest)
  {
    var s := cur + [c] + rest;
    FirstSeparatorAfter(cur, [c] + rest);
    assert s == cur + ([c] + rest);
    assert s[..|cur|] == cur && s[|cur|] == c && s[|cur| + 1..] == rest;
  }

  lemma {:induction false} FirstSeparatorAfter(cur: string, rest: string)
    requires NoSeparator(cur) && rest != [] && IsAsmLexeme(rest[0])
    ensures FirstSeparator(cur + rest) == |cur|
  {
    if cur != "" {
      assert (cur + rest)[1..] == cur[1..] + rest;
      FirstSeparatorAfter(cur[1..], rest);
    } else {
      assert cur + rest == rest;
    }
  }

  /** One step of `lex_asm_line` at a separator: the pending run and the
      separator become tokens. */
  lemma LexStepSeparator(cur: string, line: string, i: nat)
    requires i < |line| && NoSeparator(cur) && IsAsmLexeme(line[i])
    ensures Lex(cur + line[i..]) == [cur, line[i..i + 1]] + Lex(line[i + 1..])
  {
    var c, rest := line[i], line[i + 1..];
    var whole := cur + line[i..];
    assert whole == cur + [c] + rest;
    LexAtSeparator(cur, c, rest);
    assert line[i..i + 1] == [c];
  }

  /** The loop invariant of `lex_asm_line` survives a separator. */
  lemma LexInvariantSeparator(tokens: seq<string>, cur: string, line: string, i: nat)
    requires i < |line| && NoSeparator(cur) && IsAsmLexeme(line[i])
    requires tokens + Lex(cur + line[i..]) == Lex(line)
    ensures (tokens + [cur] + [line[i..i + 1]]) + Lex("" + line[i + 1..]) == Lex(line)
  {
    LexStepSeparator(cur, line, i);
    assert "" + line[i + 1..] == line[i + 1..];
    AppendPair(tokens, cur, line[i..i + 1], Lex(line[i + 1..]));
  }

  lemma AppendPair(ts: seq<string>, a: string, b: string, rest: seq<string>)
    ensures ts + ([a, b] + rest) == (ts + [a] + [b]) + rest
  {
    assert [a, b] == [a] + [b];
  }

  /** One step of `lex_asm_line` at another character: it joins the pending run. */
  lemma LexStepOther(cur: string, line: string, i: nat)
    requires i < |line| && NoSeparator(cur) && !IsAsmLexeme(line[i])
    ensures NoSeparator(cur + line[i..i + 1])
    ensures cur + line[i..] == (cur + line[i..i + 1]) + line[i + 1..]
  {
  }

  /** A run without separators lexes to itself, if it is not empty. */
  lemma LexRun(cur: string)
    requires NoSeparator(cur)
    ensures Lex(cur) == if cur == "" then [] else [cur]
  {
    assert FirstSeparator(cur) == |cur|;
  }

  /** `lex_asm_line`. */
  method LexAsmLine(line: string) returns (tokens: seq<string>)
    ensures tokens == Lex(line)
  {
    tokens := [];
    var cur := "";
    assert cur + line[0..] == line;
    for i := 0 to |line|
      invariant NoSeparator(cur)
      invariant tokens + Lex(cur + line[i..]) == Lex(line)
    {
      if IsAsmLexeme(line[i]) {
        LexInvariantSeparator(tokens, cur, line, i);
        tokens := tokens + [cur];
        cur := "";
        tokens := tokens + [line[i..i + 1]];
      } else {
        LexStepOther(cur, line, i);
        cur := cur + line[i..i + 1];
      }
    }
    assert cur + line[|line|..] == cur;
    LexRun(cur);
    if cur != "" {
      tokens := tokens + [cur];
    }
  }

  /** Concatenating the tokens gives the line back. */
  lemma {:induction false} LexConcat(s: string)
    ensures Concat(Lex(s)) == s
    decreases |s|
  {
    var p := FirstSeparator(s);
    if p < |s| {
      var rest := s[p + 1..];
      LexConcat(rest);
      var ts := [s[..p], [s[p]]] + Lex(rest);
      assert ts[1..][1..] == Lex(rest);
      assert Concat(ts) == s[..p] + ([s[p]] + Concat(Lex(rest)));
      assert s == s[..p] + [s[p]] + rest;
    } else if s != "" {
      assert Concat([s]) == s + Concat([]);
    }
  }

  /** Every token is a single separator or holds no separator, so each separator
      of the line is a token of its own. */
  lemma {:induction false} LexTokenShape(s: string)
    ensures forall t :: t in Lex(s) ==> (|t| == 1 && IsAsmLexeme(t[0])) || NoSeparator(t)
    decreases |s|
  {
    var p := FirstSeparator(s);
    if p < |s| {
      LexTokenShape(s[p + 1..]);
    } else if s != "" {
      assert s[..p] == s;
    }
  }

  /** The token a label becomes in the rollforward copy. */
  function RelabelToken(t: string, sourceLabels: set<string>): string
  {
    if t in sourceLabels then RollforwardLabel(t) else t
  }

  function RelabelAll(ts: seq<string>, sourceLabels: set<string>): (rs: seq<string>)
    ensures |rs| == |ts|
    ensures forall k :: 0 <= k < |ts| ==> rs[k] == RelabelToken(ts[k], sourceLabels)
  {
    seq(|ts|, k requires 0 <= k < |ts| => RelabelToken(ts[k], sourceLabels))
  }

  /** `relabel_line`: the tokens of the line, each label among them suffixed with
      `_rf`, the others unchanged. */
  method RelabelLine(line: string, sourceLabels: set<string>) returns (result: string)
    ensures result == Concat(RelabelAll(Lex(line), sourceLabels))
  {
    var tokens := LexAsmLine(line);
    result := "";
    for k := 0 to |tokens|
      invariant result == Concat(RelabelAll(tokens[..k], sourceLabels))
    {
      var t := tokens[k];
      assert RelabelAll(tokens[..k + 1], sourceLabels) == RelabelAll(tokens[..k], sourceLabels) + [RelabelToken(t, sourceLabels)];
      ConcatSnoc(RelabelAll(tokens[..k], sourceLabels), RelabelToken(t, sourceLabels));
      if t !in sourceLabels {
        result := result + t;
      } else {
        result := result + RollforwardLabel(t);
      }
    }
    assert tokens[..|tokens|] == tokens;
  }

  /** A line none of whose tokens is a label is left as it is; in particular
      relabelling with no labels is the identity. */
  lemma RelabelNoLabels(line: string, sourceLabels: set<string>)
    requires forall t :: t in Lex(line) ==> t !in sourceLabels
    ensures Concat(RelabelAll(Lex(line), sourceLabels)) == line
  {
    assert RelabelAll(Lex(line), sourceLabels) == Lex(line);
    LexConcat(line);
  }

  /** Relabelling `call fib` with label `fib` gives `call fib_rf`. */
  lemma RelabelExample()
    ensures Concat(RelabelAll(Lex("call fib"), {"fib"})) == "call fib_rf"
  {
    LexCallFib();
    var rs := RelabelAll(["call", " ", "fib"], {"fib"});
    assert rs[0] == "call" by { assert "call" != "fib"; }
    assert rs[1] == " " by { assert " " != "fib"; }
    assert rs[2] == "fib" + "_rf";
    assert "fib" + "_rf" == "fib_rf";
    assert rs == ["call", " ", "fib_rf"];
    assert Concat(rs) == "call" + Concat(rs[1..]);
    assert Concat(rs[1..]) == " " + Concat(rs[2..]);
    assert Concat(rs[2..]) == "fib_rf" + Concat([]);
  }

  lemma LexCallFib()
    ensures Lex("call fib") == ["call", " ", "fib"]
  {
    var s := "call fib";
    assert s == "call" + [' '] + "fib";
    assert NoSeparator("call") by {
      assert !IsAsmLexeme('c') && !IsAsmLexeme('a') && !IsAsmLexeme('l');
    }
    assert NoSeparator("fib") by {
      assert !IsAsmLexeme('f') && !IsAsmLexeme('i') && !IsAsmLexeme('b');
    }
    LexAtSeparator("call", ' ', "fib");
    LexRun("fib");
  }

  // Comments
  // ========

  /** `remove_comment_from_line`: the line up to its first '#'. */
  function RemoveComment(line: string): (r: string)
    ensures '#' !in r
    ensures |r| <= |line| && r == line[..|r|]
    ensures |r| < |line| ==> line[|r|] == '#'
  {
    var pos := FirstIndexOf(line, '#');
    if pos == |line| then line else line[..pos]
  }

  /** Removing comments twice removes no more than once, and a line without '#' is kept. */
  lemma RemoveCommentIdempotent(line: string)
    ensures RemoveComment(RemoveComment(line)) == RemoveComment(line)
    ensures '#' !in line ==> RemoveComment(line) == line
  {
    var r := RemoveComment(line);
    assert FirstIndexOf(r, '#') == |r|;
    if '#' !in line {
      assert FirstIndexOf(line, '#') == |line|;
    }
  }

  // Instruction labels
  // ==================

  /** `mk_instr_label`. */
  function InstrLabel(prefix: string, i: nat): string
  {
    prefix + NatToString(i)
  }

  /** `mk_instr_labels`: one label per instruction line of the whole file; the
      count it is given is not used. */
  method MkInstrLabels(prefix: string, nbInstrs: nat, totalNbInstrs: nat) returns (result: seq<string>)
    ensures |result| == totalNbInstrs
    ensures forall i :: 0 <= i < totalNbInstrs ==> result[i] == InstrLabel(prefix, i)
  {
    result := [];
    for i := 0 to totalNbInstrs
      invariant |result| == i
      invariant forall k :: 0 <= k < i ==> result[k] == InstrLabel(prefix, k)
    {
      result := result + [InstrLabel(prefix, i)];
    }
  }

  /** Distinct instruction numbers give distinct labels. */
  lemma InstrLabelsDistinct(prefix: string, i: nat, j: nat)
    requires i != j
    ensures InstrLabel(prefix, i) != InstrLabel(prefix, j)
  {
    NatToStringInjective(i, j);
    assert InstrLabel(prefix, i)[|prefix|..] == NatToString(i);
    assert InstrLabel(prefix, j)[|prefix|..] == NatToString(j);
  }
}
