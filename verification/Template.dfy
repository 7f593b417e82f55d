/**
 The TEMPLATE transformation: a text with variables written ${name} is split into its literal
 pieces and its variables once, and each event is rendered by putting the values of the variables
 in their places.
 */
module Templates {
  import opened Wrappers

  /** The text of a variable runs from its dollar sign to its closing brace. */
  datatype Piece = Literal(text: string) | Variable(text: string)

  datatype Outcome =
    | Parsed(pieces: seq<Piece>)
    | Unclosed
    | Unknown(name: string)
    | Panics

  // ---------- texts ----------

  predicate IsSpace(c: char)
  {
    c == ' ' || '\t' <= c <= '\r'
  }

  function Trimmed(s: string): (r: string)
    decreases |s|
  {
    if s == [] then s
    else if IsSpace(s[0]) then Trimmed(s[1..])
    else if IsSpace(s[|s| - 1]) then Trimmed(s[..|s| - 1])
    else s
  }

  /** Blanks and ASCII 9 to 13. */
  ghost predicate AllSpaces(s: string)
  {
    forall k :: 0 <= k < |s| ==> s[k] == ' ' || 9 <= s[k] as int <= 13
  }

  lemma MoreSpaces(a: string, b: string)
    requires AllSpaces(a) && AllSpaces(b)
    ensures AllSpaces(a + b)
  {
  }

  /** Trimming takes spaces off both ends, and nothing else. */
  lemma {:induction false} TrimmedIs(s: string) returns (i: nat, j: nat)
    ensures i <= j <= |s| && Trimmed(s) == s[i..j]
    ensures AllSpaces(s[..i]) && AllSpaces(s[j..])
    ensures i < j ==>
      && s[i] != ' ' && !(9 <= s[i] as int <= 13)
      && s[j - 1] != ' ' && !(9 <= s[j - 1] as int <= 13)
    decreases |s|
  {
    hide Trimmed, AllSpaces;
    TrimmedStep(s);
    NoSpaces(s);
    if s != [] && IsSpace(s[0]) {
      var m, n := TrimmedIs(s[1..]);
      i, j := m + 1, n + 1;
      OffTheFront(s, m, n);
    } else if s != [] && IsSpace(s[|s| - 1]) {
      var m, n := TrimmedIs(s[..|s| - 1]);
      i, j := m, n;
      OffTheEnd(s, m, n);
    } else {
      i, j := 0, |s|;
    }
  }

  lemma NoSpaces(s: string)
    ensures s[0..|s|] == s && AllSpaces(s[..0]) && AllSpaces(s[|s|..])
  {
  }

  lemma OffTheFront(s: string, m: nat, n: nat)
    requires m <= n < |s| && IsSpace(s[0]) && AllSpaces(s[1..][..m]) && AllSpaces(s[1..][n..])
    ensures AllSpaces(s[..m + 1]) && AllSpaces(s[n + 1..]) && s[1..][m..n] == s[m + 1..n + 1]
  {
    MoreSpaces([s[0]], s[1..][..m]);
    assert s[..m + 1] == [s[0]] + s[1..][..m];
    assert s[n + 1..] == s[1..][n..];
  }

  lemma OffTheEnd(s: string, m: nat, n: nat)
    requires m <= n < |s| && IsSpace(s[|s| - 1])
    requires AllSpaces(s[..|s| - 1][..m]) && AllSpaces(s[..|s| - 1][n..])
    ensures AllSpaces(s[..m]) && AllSpaces(s[n..]) && s[..|s| - 1][m..n] == s[m..n]
  {
    MoreSpaces(s[..|s| - 1][n..], [s[|s| - 1]]);
    assert s[..m] == s[..|s| - 1][..m];
    assert s[n..] == s[..|s| - 1][n..] + [s[|s| - 1]];
  }

  lemma TrimmedStep(s: string)
    ensures Trimmed(s) ==
      if s == [] then s
      else if IsSpace(s[0]) then Trimmed(s[1..])
      else if IsSpace(s[|s| - 1]) then Trimmed(s[..|s| - 1])
      else s
  {
  }

  predicate OpensAt(t: string, i: int)
  {
    0 <= i && i + 1 < |t| && t[i] == '$' && t[i + 1] == '{'
  }

  ghost predicate HasOpening(t: string)
  {
    exists i :: OpensAt(t, i)
  }

  /** Where the first variable opens, or the length of the text. */
  function FirstOpening(t: string): (i: nat)
    ensures i <= |t|
    ensures i < |t| ==> OpensAt(t, i)
    ensures forall j :: OpensAt(t, j) ==> i <= j
  {
    if t == [] then 0
    else if OpensAt(t, 0) then 0
    else
      var i := FirstOpening(t[1..]);
      assert forall j :: OpensAt(t, j) ==> OpensAt(t[1..], j - 1);
      i + 1
  }

  function IndexOf(t: string, c: char): (i: nat)
    ensures i <= |t| && forall k :: 0 <= k < i ==> t[k] != c
    ensures if c in t then i < |t| && t[i] == c else i == |t|
  {
    if t == [] then 0
    else if t[0] == c then 0
    else IndexOf(t[1..], c) + 1
  }

  /** The name of a variable, given its text with or without the closing brace. */
  function Name(text: string): string
    requires |text| >= 2
  {
    Trimmed(text[2..])
  }

  // ---------- what a template is ----------

  /** The form of a variable, whatever its name: it holds no closing brace but its last. */
  predicate IsBraced(v: string)
  {
    |v| >= 3 && OpensAt(v, 0) && v[|v| - 1] == '}' && forall k :: 0 <= k < |v| - 1 ==> v[k] != '}'
  }

  predicate IsVariable(text: string, names: set<string>)
  {
    IsBraced(text) && Name(text[..|text| - 1]) in names
  }

  ghost predicate IsLiteral(text: string)
  {
    text != [] && !HasOpening(text)
  }

  /** Literals and known variables, with no two literals in a row. */
  ghost predicate WellFormed(pieces: seq<Piece>, names: set<string>)
  {
    && (forall i :: 0 <= i < |pieces| ==>
          if pieces[i].Literal? then IsLiteral(pieces[i].text) else IsVariable(pieces[i].text, names))
    && (forall i, j :: 0 <= i < j < |pieces| && j == i + 1 ==> pieces[i].Variable? || pieces[j].Variable?)
  }

  function Text(pieces: seq<Piece>): string
  {
    if pieces == [] then [] else pieces[0].text + Text(pieces[1..])
  }

  // ---------- splitting a text ----------

  function LiteralOf(s: string): seq<Piece>
  {
    if s == [] then [] else [Literal(s)]
  }

  function Before(pieces: seq<Piece>, o: Outcome): Outcome
  {
    if o.Parsed? then Parsed(pieces + o.pieces) else o
  }

  /** The first variable of a text, with what comes before and after it. */
  datatype Front = NoVariable | NeverClosed | Found(before: string, variable: string, after: string)

  function FrontOf(t: string): (f: Front)
    ensures f.NoVariable? <==> !HasOpening(t)
    ensures f.Found? ==> t == f.before + f.variable + f.after && !HasOpening(f.before) && IsBraced(f.variable)
    ensures f.NeverClosed? <==> FirstOpening(t) < |t| && '}' !in t[FirstOpening(t)..]
  {
    hide HasOpening, IsBraced;
    OpensSomewhere(t);
    var i := FirstOpening(t);
    if i == |t| then NoVariable
    else
      var u := t[i..];
      var n := IndexOf(u, '}');
      if n == |u| then NeverClosed
      else
        FoundFront(t, u, i, n);
        Found(t[..i], u[..n + 1], u[n + 1..])
  }

  lemma OpensSomewhere(t: string)
    ensures FirstOpening(t) == |t| <==> !HasOpening(t)
  {
  }

  lemma FoundFront(t: string, u: string, i: nat, n: nat)
    requires i < |t| && i == FirstOpening(t) && u == t[i..] && n < |u| && n == IndexOf(u, '}')
    ensures !HasOpening(t[..i]) && IsBraced(u[..n + 1]) && t == t[..i] + u[..n + 1] + u[n + 1..]
  {
    hide FirstOpening, IndexOf, IsBraced, HasOpening;
    NothingBefore(t, i);
    assert u[0] == t[i] && u[1] == t[i + 1];
    BracedFront(u, n);
    assert u == u[..n + 1] + u[n + 1..];
    assert t == t[..i] + u;
    Regroup(t[..i], u[..n + 1], u[n + 1..]);
  }

  lemma NothingBefore(t: string, i: nat)
    requires i <= |t| && i == FirstOpening(t)
    ensures !HasOpening(t[..i])
  {
    hide FirstOpening;
    assert forall j :: OpensAt(t[..i], j) ==> OpensAt(t, j);
  }

  lemma BracedFront(u: string, n: nat)
    requires OpensAt(u, 0) && n < |u| && n == IndexOf(u, '}')
    ensures IsBraced(u[..n + 1])
  {
    hide IndexOf;
    assert u[n] == '}' && u[1] == '{';
  }

  /** The pieces of a text, or the first fault from the left. */
  function Split(t: string, names: set<string>): Outcome
    decreases |t|
  {
    match FrontOf(t)
    case NoVariable => Parsed(LiteralOf(t))
    case NeverClosed => Unclosed
    case Found(s, v, w) =>
      var name := Name(v[..|v| - 1]);
      if name !in names then Unknown(name) else Before(LiteralOf(s) + [Variable(v)], Split(w, names))
  }

  /** The first variable of a text that starts with a literal opens right after it. */
  lemma OpeningAfter(s: string, u: string)
    requires !HasOpening(s) && OpensAt(u, 0)
    ensures FirstOpening(s + u) == |s|
  {
    assert OpensAt(s + u, |s|);
    assert forall j :: OpensAt(s + u, j) && j + 1 < |s| ==> OpensAt(s, j);
  }

  lemma FrontIsUnique(s: string, v: string, w: string)
    requires !HasOpening(s) && IsBraced(v)
    ensures FrontOf(s + v + w) == Found(s, v, w)
  {
    var t, u := s + v + w, v + w;
    assert t == s + u;
    OpeningAfter(s, u);
    assert t[|s|..] == u && t[..|s|] == s;
    assert u[|v| - 1] == '}';
    assert IndexOf(u, '}') == |v| - 1;
  }

  lemma TextOf(s: string, v: string, rest: seq<Piece>)
    ensures Text(LiteralOf(s)) == s
    ensures Text(LiteralOf(s) + [Variable(v)] + rest) == s + v + Text(rest)
  {
    var p := [Variable(v)] + rest;
    assert p[1..] == rest;
    if s == [] {
      assert LiteralOf(s) + [Variable(v)] + rest == p;
    } else {
      assert LiteralOf(s)[1..] == [];
      assert (LiteralOf(s) + [Variable(v)] + rest)[1..] == p;
    }
  }

  /** The pieces are a reading of the text t. */
  ghost predicate Reads(pieces: seq<Piece>, t: string, names: set<string>)
  {
    WellFormed(pieces, names) && Text(pieces) == t
  }

  lemma FrontReads(s: string, v: string, rest: seq<Piece>, w: string, names: set<string>)
    requires !HasOpening(s) && IsVariable(v, names) && Reads(rest, w, names)
    ensures Reads(LiteralOf(s) + [Variable(v)] + rest, s + v + w, names)
  {
    TextOf(s, v, rest);
  }

  lemma PlainReads(s: string, names: set<string>)
    requires !HasOpening(s)
    ensures Reads(LiteralOf(s), s, names)
  {
    TextOf(s, [], []);
  }

  /** Splitting loses nothing: the pieces are well-formed and together give the text back. */
  lemma {:induction false} SplitIsLossless(t: string, names: set<string>)
    requires Split(t, names).Parsed?
    ensures Reads(Split(t, names).pieces, t, names)
    decreases |t|
  {
    hide FrontOf, HasOpening, Trimmed, Reads, LiteralOf;
    match FrontOf(t)
    case NoVariable => PlainReads(t, names);
    case Found(s, v, w) =>
      SplitIsLossless(w, names);
      FrontReads(s, v, Split(w, names).pieces, w, names);
  }

  lemma StepOver(s: string, v: string, rest: seq<Piece>, names: set<string>)
    requires !HasOpening(s) && IsVariable(v, names) && Split(Text(rest), names) == Parsed(rest)
    ensures Split(s + v + Text(rest), names) == Parsed(LiteralOf(s) + [Variable(v)] + rest)
  {
    SplitStep(s, v, Text(rest), names);
  }

  predicate EndsInVariable(pieces: seq<Piece>)
  {
    pieces == [] || pieces[|pieces| - 1].Variable?
  }

  /** The pieces up to the first variable, and the others. */
  lemma FirstPieces(pieces: seq<Piece>, names: set<string>) returns (s: string, v: string, rest: seq<Piece>)
    requires WellFormed(pieces, names) && pieces != [] && pieces != LiteralOf(pieces[0].text)
    ensures pieces == LiteralOf(s) + [Variable(v)] + rest && Text(pieces) == s + v + Text(rest)
    ensures !HasOpening(s) && IsVariable(v, names) && WellFormed(rest, names) && |rest| < |pieces|
    ensures EndsInVariable(pieces) ==> EndsInVariable(rest)
  {
    var k := if pieces[0].Variable? then 0 else 1;
    s := if k == 0 then [] else pieces[0].text;
    v, rest := pieces[k].text, pieces[k + 1..];
    assert pieces == LiteralOf(s) + [Variable(v)] + rest;
    TextOf(s, v, rest);
  }

  /** There is at most one reading of a text, and splitting finds it. */
  lemma {:induction false} SplitIsUnique(pieces: seq<Piece>, t: string, names: set<string>)
    requires Reads(pieces, t, names)
    ensures Split(t, names) == Parsed(pieces)
    decreases |pieces|
  {
    if pieces == [] {
    } else if pieces == LiteralOf(pieces[0].text) {
      TextOf(pieces[0].text, [], []);
    } else {
      var s, v, rest := FirstPieces(pieces, names);
      SplitIsUnique(rest, Text(rest), names);
      StepOver(s, v, rest, names);
    }
  }

  // ---------- what the tokenizer does ----------

  /** The template opens with a known variable: the tokenizer then looks at the character before it. */
  predicate StartsWithVariable(t: string, names: set<string>)
  {
    OpensAt(t, 0) && '}' in t && Name(t[..IndexOf(t, '}')]) in names
  }

  /** The tokenizer looks at the character after every dollar sign, the last one too. */
  predicate EndsInDollar(t: string)
  {
    t != [] && t[|t| - 1] == '$'
  }

  predicate Quoted(pieces: seq<Piece>)
  {
    && pieces != []
    && var last := pieces[|pieces| - 1];
       last.Literal? && last.text != [] && last.text[|last.text| - 1] == '"'
  }

  /** The text whose syntax is checked: a variable that does not follow a quote is replaced by the number 1. */
  function Checked(pieces: seq<Piece>): string
  {
    if pieces == [] then []
    else
      var front, last := pieces[..|pieces| - 1], pieces[|pieces| - 1];
      Checked(front) + if last.Literal? || Quoted(front) then last.text else "1"
  }

  lemma CheckedLiteral(pieces: seq<Piece>, s: string)
    ensures Checked(pieces + LiteralOf(s)) == Checked(pieces) + s
  {
    if s == [] {
      assert pieces + LiteralOf(s) == pieces;
    } else {
      assert (pieces + LiteralOf(s))[..|pieces|] == pieces;
    }
  }

  lemma CheckedVariable(pieces: seq<Piece>, v: string)
    ensures Checked(pieces + [Variable(v)]) == Checked(pieces) + if Quoted(pieces) then v else "1"
  {
    assert (pieces + [Variable(v)])[..|pieces|] == pieces;
  }

  /** The text with every variable in it replaced by the number 1, unless a quote stands right before
      it; `quoted` says whether one does before t. */
  function Numbered(t: string, quoted: bool): string
    decreases |t|
  {
    if t == [] then []
    else
      var n := IndexOf(t, '}');
      if OpensAt(t, 0) && n < |t| then (if quoted then t[..n + 1] else "1") + Numbered(t[n + 1..], false)
      else [t[0]] + Numbered(t[1..], t[0] == '"')
  }

  predicate QuotedAfter(s: string, quoted: bool)
  {
    if s == [] then quoted else s[|s| - 1] == '"'
  }

  lemma {:induction false} NumberedLiteral(s: string, u: string, quoted: bool)
    requires !HasOpening(s) && (u == [] || OpensAt(u, 0))
    ensures Numbered(s + u, quoted) == s + Numbered(u, QuotedAfter(s, quoted))
    decreases |s|
  {
    hide Numbered;
    if s == [] {
      assert s + u == u;
    } else {
      var rest := s[1..];
      NumberedCharacter(s, u, quoted);
      assert forall j :: OpensAt(rest, j) ==> OpensAt(s, j + 1);
      NumberedLiteral(rest, u, s[0] == '"');
      assert QuotedAfter(rest, s[0] == '"') == QuotedAfter(s, quoted);
      Regroup([s[0]], rest, Numbered(u, QuotedAfter(s, quoted)));
      assert [s[0]] + rest == s;
    }
  }

  lemma NumberedCharacter(s: string, u: string, quoted: bool)
    requires s != [] && !HasOpening(s) && (u == [] || OpensAt(u, 0))
    ensures Numbered(s + u, quoted) == [s[0]] + Numbered(s[1..] + u, s[0] == '"')
  {
    NoOpeningInFront(s, u);
    assert (s + u)[1..] == s[1..] + u;
  }

  lemma NumberedVariable(v: string, w: string, quoted: bool)
    requires IsBraced(v)
    ensures Numbered(v + w, quoted) == (if quoted then v else "1") + Numbered(w, false)
  {
    var t := v + w;
    assert t[|v| - 1] == '}' && t[1] == '{';
    assert IndexOf(t, '}') == |v| - 1;
    assert t[..|v|] == v && t[|v|..] == w;
    assert OpensAt(t, 0);
  }

  /** What is checked, for pieces that come after others. */
  function CheckedAfter(pieces: seq<Piece>, quoted: bool): string
  {
    if pieces == [] then []
    else
      var first := pieces[0];
      if first.Literal? then first.text + CheckedAfter(pieces[1..], QuotedAfter(first.text, quoted))
      else (if quoted then first.text else "1") + CheckedAfter(pieces[1..], false)
  }

  lemma {:induction false} CheckedAfterText(pieces: seq<Piece>, names: set<string>, quoted: bool)
    requires WellFormed(pieces, names)
    ensures CheckedAfter(pieces, quoted) == Numbered(Text(pieces), quoted)
    decreases |pieces|
  {
    if pieces != [] {
      var first, u := pieces[0].text, Text(pieces[1..]);
      if pieces[0].Literal? {
        CheckedAfterText(pieces[1..], names, QuotedAfter(first, quoted));
        AfterLiteral(pieces, names);
        NumberedLiteral(first, u, quoted);
      } else {
        CheckedAfterText(pieces[1..], names, false);
        NumberedVariable(first, u, quoted);
      }
    }
  }

  lemma {:induction false} CheckedFrom(front: seq<Piece>, pieces: seq<Piece>)
    requires forall p :: p in pieces && p.Literal? ==> p.text != []
    ensures Checked(front + pieces) == Checked(front) + CheckedAfter(pieces, Quoted(front))
    decreases |pieces|
  {
    if pieces == [] {
      assert front + pieces == front;
    } else {
      var first, longer := pieces[0], front + [pieces[0]];
      assert front + pieces == longer + pieces[1..] && longer[..|front|] == front;
      CheckedFrom(longer, pieces[1..]);
      if first.Literal? {
        assert Quoted(longer) == QuotedAfter(first.text, Quoted(front));
        Regroup(Checked(front), first.text, CheckedAfter(pieces[1..], Quoted(longer)));
      } else {
        var shown := if Quoted(front) then first.text else "1";
        Regroup(Checked(front), shown, CheckedAfter(pieces[1..], false));
      }
    }
  }

  /** The text whose syntax is checked is the template with its unquoted variables replaced. */
  lemma CheckedIsNumbered(pieces: seq<Piece>, t: string, names: set<string>)
    requires Reads(pieces, t, names)
    ensures Checked(pieces) == Numbered(t, false)
  {
    CheckedFrom([], pieces);
    assert [] + pieces == pieces;
    CheckedAfterText(pieces, names, false);
  }

  /** With one variable in it, {"a":${x}} is checked as {"a":1}, and {"a":"${x}"} as it stands. */
  lemma CheckingOne(before: string, name: string, after: string)
    requires !HasOpening(before) && !HasOpening(after) && '}' !in name
    ensures
      var t := before + ("${" + name + "}") + after;
      Numbered(t, false) == if before != [] && before[|before| - 1] == '"' then t else before + "1" + after
  {
    hide Numbered, HasOpening;
    var v := Braced(name);
    Grouped(before, v, after);
    NumberedLiteral(before, v + after, false);
    NumberedVariable(v, after, QuotedAfter(before, false));
    NumberedLiteral(after, [], false);
    NumberedNothing(after);
  }

  lemma Braced(name: string) returns (v: string)
    requires '}' !in name
    ensures v == "${" + name + "}" && IsBraced(v) && OpensAt(v, 0)
  {
    v := "${" + name + "}";
  }

  lemma Grouped(before: string, v: string, after: string)
    requires OpensAt(v, 0)
    ensures before + v + after == before + (v + after) && OpensAt(v + after, 0)
    ensures before + ("1" + after) == before + "1" + after
  {
  }

  lemma NumberedNothing(after: string)
    ensures after + [] == after && Numbered([], QuotedAfter(after, false)) == []
  {
  }

  /** A template that begins with ${x} is one the tokenizer crashes on, if x is known. */
  lemma StartingWithOne(name: string, after: string, names: set<string>)
    requires '}' !in name
    ensures StartsWithVariable(("${" + name + "}") + after, names) <==> Trimmed(name) in names
  {
    hide Trimmed;
    var v := Braced(name);
    var t := v + after;
    assert t[|v| - 1] == '}' && t[1] == '{';
    assert IndexOf(t, '}') == |v| - 1;
    assert t[..|v| - 1][2..] == name && OpensAt(t, 0);
  }

  // ---------- the tokenizer ----------

  lemma TextConcat(p: seq<Piece>, q: seq<Piece>)
    ensures Text(p + q) == Text(p) + Text(q)
  {
    if p == [] {
      assert p + q == q;
    } else {
      assert (p + q)[1..] == p[1..] + q;
      TextConcat(p[1..], q);
    }
  }

  lemma ReadOnWellFormed(pieces: seq<Piece>, s: string, v: string, names: set<string>)
    requires WellFormed(pieces, names) && EndsInVariable(pieces) && !HasOpening(s) && IsVariable(v, names)
    ensures WellFormed(pieces + LiteralOf(s) + [Variable(v)], names)
  {
  }

  lemma ReadOnText(pieces: seq<Piece>, s: string, v: string)
    ensures Text(pieces + LiteralOf(s) + [Variable(v)]) == Text(pieces) + s + v
  {
    TextConcat(pieces, LiteralOf(s));
    TextConcat(pieces + LiteralOf(s), [Variable(v)]);
    TextOf(s, [], []);
    assert Text([Variable(v)]) == v + Text([]);
  }

  /** Reading on: a literal, if there is text before the variable, and the variable. */
  lemma ReadOn(pieces: seq<Piece>, x: string, s: string, v: string, names: set<string>)
    requires Reads(pieces, x, names) && EndsInVariable(pieces) && !HasOpening(s) && IsVariable(v, names)
    ensures Reads(pieces + LiteralOf(s) + [Variable(v)], x + s + v, names)
  {
    ReadOnWellFormed(pieces, s, v, names);
    ReadOnText(pieces, s, v);
  }

  lemma BeforeBefore(p: seq<Piece>, q: seq<Piece>, o: Outcome)
    ensures Before(p, Before(q, o)) == Before(p + q, o)
  {
    if o.Parsed? {
      assert p + (q + o.pieces) == p + q + o.pieces;
    }
  }

  lemma SplitStep(s: string, v: string, w: string, names: set<string>)
    requires !HasOpening(s) && IsBraced(v)
    ensures Name(v[..|v| - 1]) !in names ==> Split(s + v + w, names) == Unknown(Name(v[..|v| - 1]))
    ensures Name(v[..|v| - 1]) in names ==>
      Split(s + v + w, names) == Before(LiteralOf(s) + [Variable(v)], Split(w, names))
  {
    hide FrontOf, HasOpening, IsBraced, LiteralOf, Trimmed;
    FrontIsUnique(s, v, w);
  }

  lemma Regroup(x: string, y: string, z: string)
    ensures x + (y + z) == x + y + z
  {
  }

  lemma SplitOn(s: string, v: string, rest: seq<Piece>, w: string, o: Outcome, names: set<string>)
    requires !HasOpening(s) && IsVariable(v, names) && Split(w, names) == Before(rest, o)
    ensures Split(s + v + w, names) == Before(LiteralOf(s) + [Variable(v)] + rest, o)
  {
    SplitStep(s, v, w, names);
    BeforeBefore(LiteralOf(s) + [Variable(v)], rest, o);
  }

  /** What has been read up to the end of a variable is final. */
  lemma {:induction false} SplitAfter(pieces: seq<Piece>, x: string, u: string, names: set<string>)
    requires Reads(pieces, x, names) && EndsInVariable(pieces)
    ensures Split(x + u, names) == Before(pieces, Split(u, names))
    decreases |pieces|
  {
    if pieces == [] {
      assert x + u == u;
    } else {
      assert pieces[0].Literal? ==> |pieces| > 1;
      var s, v, rest := FirstPieces(pieces, names);
      var y := Text(rest);
      SplitAfter(rest, y, u, names);
      SplitOn(s, v, rest, y + u, Split(u, names), names);
      Regroup(s + v, y, u);
    }
  }

  /** The text before `start` has been read, and nothing opens between `start` and `end`. */
  ghost predicate Scanned(t: string, names: set<string>, pieces: seq<Piece>, start: int, end: int)
  {
    && 0 <= start <= end <= |t| && Reads(pieces, t[..start], names) && EndsInVariable(pieces)
    && (start == 0 <==> pieces == []) && (start > 0 ==> t[start - 1] == '}')
    && forall j :: start <= j < end ==> !OpensAt(t, j)
  }

  lemma ScannedText(t: string, names: set<string>, pieces: seq<Piece>, start: int, end: int)
    requires Scanned(t, names, pieces, start, end)
    ensures !HasOpening(t[start..end])
  {
    assert forall j :: OpensAt(t[start..end], j) ==> OpensAt(t, start + j);
  }

  lemma AfterReading(t: string, names: set<string>, pieces: seq<Piece>, start: int, u: string)
    requires 0 <= start <= |t| && Reads(pieces, t[..start], names) && EndsInVariable(pieces) && u == t[start..]
    ensures Split(t, names) == Before(pieces, Split(u, names))
  {
    assert t == t[..start] + u;
    SplitAfter(pieces, t[..start], u, names);
  }

  lemma Halves(t: string, start: int, end: int)
    requires 0 <= start <= end <= |t|
    ensures t[start..] == t[start..end] + t[end..]
    ensures OpensAt(t, end) ==> OpensAt(t[end..], 0)
  {
  }

  lemma UnclosedStep(s: string, u: string, names: set<string>)
    requires !HasOpening(s) && OpensAt(u, 0) && '}' !in u
    ensures Split(s + u, names) == Unclosed
  {
    OpeningAfter(s, u);
    assert (s + u)[|s|..] == u;
  }

  lemma AtUnclosed(t: string, names: set<string>, pieces: seq<Piece>, start: int, end: int)
    requires Scanned(t, names, pieces, start, end) && OpensAt(t, end) && '}' !in t[end..]
    ensures Split(t, names) == Unclosed
  {
    hide Split, Reads, HasOpening, LiteralOf, EndsInVariable;
    ScannedText(t, names, pieces, start, end);
    Halves(t, start, end);
    UnclosedStep(t[start..end], t[end..], names);
    AfterReading(t, names, pieces, start, t[start..end] + t[end..]);
  }

  lemma AtEnd(t: string, names: set<string>, pieces: seq<Piece>, start: int)
    requires Scanned(t, names, pieces, start, |t|)
    ensures Split(t, names) == Parsed(pieces + LiteralOf(t[start..|t|]))
  {
    ScannedText(t, names, pieces, start, |t|);
    AfterReading(t, names, pieces, start, t[start..|t|]);
  }

  lemma VariableAt(t: string, end: int, n: int)
    requires OpensAt(t, end) && n == IndexOf(t[end..], '}') < |t| - end
    ensures n >= 2 && IsBraced(t[end..end + n + 1]) && t[end..end + n + 1][..n] == t[end..end + n]
    ensures t[end + n] == '}' && t[end..end + n + 1] == t[end..end + n] + "}"
  {
    var u := t[end..];
    assert u[0] == '$' && u[1] == '{';
    assert u[n] == '}';
    assert t[end..end + n + 1] == u[..n + 1];
  }

  lemma Pieced(t: string, start: int, end: int, v: string)
    requires 0 <= start <= end && end + |v| <= |t| && v == t[end..end + |v|]
    ensures t[..end + |v|] == t[..start] + t[start..end] + v
    ensures t[start..] == t[start..end] + v + t[end + |v|..]
  {
  }

  lemma AtUnknown(t: string, names: set<string>, pieces: seq<Piece>, start: int, end: int, v: string)
    requires Scanned(t, names, pieces, start, end) && end + |v| <= |t| && v == t[end..end + |v|] && IsBraced(v)
    requires Name(v[..|v| - 1]) !in names
    ensures Split(t, names) == Unknown(Name(v[..|v| - 1]))
  {
    ScannedText(t, names, pieces, start, end);
    Pieced(t, start, end, v);
    SplitStep(t[start..end], v, t[end + |v|..], names);
    AfterReading(t, names, pieces, start, t[start..end] + v + t[end + |v|..]);
  }

  lemma AtVariable(t: string, names: set<string>, pieces: seq<Piece>, start: int, end: int, v: string)
    requires Scanned(t, names, pieces, start, end) && end + |v| <= |t| && v == t[end..end + |v|]
    requires IsVariable(v, names)
    ensures Reads(pieces + LiteralOf(t[start..end]) + [Variable(v)], t[..end + |v|], names)
    ensures t[end + |v| - 1] == '}'
  {
    ScannedText(t, names, pieces, start, end);
    Pieced(t, start, end, v);
    ReadOn(pieces, t[..start], t[start..end], v, names);
  }

  /** A variable is in quotes if the character before it is one. */
  lemma QuotedBy(t: string, pieces: seq<Piece>, start: int, end: int)
    requires 0 <= start <= end <= |t| && end > 0 && EndsInVariable(pieces)
    requires start > 0 ==> t[start - 1] == '}'
    ensures Quoted(pieces + LiteralOf(t[start..end])) <==> t[end - 1] == '"'
  {
    if start < end {
      assert LiteralOf(t[start..end]) == [Literal(t[start..end])];
    } else {
      assert pieces + LiteralOf(t[start..end]) == pieces;
    }
  }

  /** The text to be checked, after a literal and a variable. */
  lemma CheckedOn(t: string, pieces: seq<Piece>, start: int, end: int, v: string)
    requires 0 <= start <= end <= |t| && end > 0 && EndsInVariable(pieces)
    requires start > 0 ==> t[start - 1] == '}'
    ensures Checked(pieces + LiteralOf(t[start..end]) + [Variable(v)])
         == Checked(pieces) + t[start..end] + if t[end - 1] == '"' then v else "1"
  {
    QuotedBy(t, pieces, start, end);
    CheckedLiteral(pieces, t[start..end]);
    CheckedVariable(pieces + LiteralOf(t[start..end]), v);
  }

  /** What to do at an opening: the name found there, and the pieces with it. */
  lemma AtOpening(t: string, names: set<string>, pieces: seq<Piece>, start: int, end: int, n: int)
    requires Scanned(t, names, pieces, start, end) && OpensAt(t, end) && n == IndexOf(t[end..], '}')
    ensures n == |t| - end ==> Split(t, names) == Unclosed
    ensures n < |t| - end ==> n >= 2 && t[end + n] == '}'
    ensures n < |t| - end && Name(t[end..end + n]) !in names ==>
      Split(t, names) == Unknown(Name(t[end..end + n]))
    ensures n < |t| - end && Name(t[end..end + n]) in names ==>
      Scanned(t, names, pieces + LiteralOf(t[start..end]) + [Variable(t[end..end + n] + "}")], end + n + 1, end + n + 1)
    ensures end == 0 ==> (StartsWithVariable(t, names) <==> n < |t| && Name(t[..n]) in names)
  {
    hide Split, Reads, HasOpening, LiteralOf, Trimmed;
    assert t[0..] == t;
    if n == |t| - end {
      AtUnclosed(t, names, pieces, start, end);
    } else {
      VariableAt(t, end, n);
      var v := t[end..end + n] + "}";
      if Name(t[end..end + n]) !in names {
        AtUnknown(t, names, pieces, start, end, v);
      } else {
        AtVariable(t, names, pieces, start, end, v);
      }
    }
  }

  lemma AtStart(t: string, names: set<string>)
    ensures Scanned(t, names, [], 0, 0) && Checked([]) == []
  {
  }

  /** The tokenizer finds the one reading of the text, except that it crashes on a text that starts
      with a known variable, and on a text without a fault that ends in a dollar sign. */
  method Tokenize(t: string, names: set<string>) returns (o: Outcome, check: string)
    ensures o.Panics? <==> StartsWithVariable(t, names) || (Split(t, names).Parsed? && EndsInDollar(t))
    ensures !o.Panics? ==> o == Split(t, names)
    ensures o.Parsed? ==> check == Checked(o.pieces) == Numbered(t, false)
  {
    hide Numbered, Reads, Split, Text, Checked, IndexOf, Name, EndsInVariable;
    AtStart(t, names);
    var pieces: seq<Piece> := [];
    check := [];
    var start, end := 0, 0;
    while end < |t|
      invariant Scanned(t, names, pieces, start, end)
      invariant end > 0 ==> !StartsWithVariable(t, names)
      invariant end > 0 && t[end - 1] == '$' ==> end < |t|
      invariant check == Checked(pieces)
    {
      if t[end] == '$' {
        if end + 1 == |t| {
          AtEnd(t, names, pieces, start);
          return Panics, check;
        }
        if t[end + 1] == '{' {
          ghost var before := pieces;
          var literal := t[start..end];
          if end > start {
            pieces := pieces + [Literal(literal)];
            check := check + literal;
          }
          assert pieces == before + LiteralOf(literal);
          assert check == Checked(before) + literal;
          var n := IndexOf(t[end..], '}');
          AtOpening(t, names, before, start, end, n);
          if n == |t| - end {
            return Unclosed, check;
          }
          var variable := t[end..end + n];
          if Name(variable) !in names {
            return Unknown(Name(variable)), check;
          }
          pieces := pieces + [Variable(variable + "}")];
          if end == 0 {
            return Panics, check;
          }
          CheckedOn(t, before, start, end, variable + "}");
          check := check + if t[end - 1] != '"' then "1" else variable + "}";
          end := end + n;
          start := end + 1;
        }
      }
      end := end + 1;
    }
    AtEnd(t, names, pieces, start);
    CheckedLiteral(pieces, t[start..|t|]);
    if |t| > start {
      pieces := pieces + [Literal(t[start..|t|])];
      check := check + t[start..|t|];
    }
    o := Parsed(pieces);
    assert pieces + [] == pieces && o == Split(t, names);
    SplitIsLossless(t, names);
    CheckedIsNumbered(pieces, t, names);
  }

  // ---------- rendering ----------

  /** What a variable yields for an event: a text, which is put in as it is, another value, which is
      put in as encoded, or an error of fetching or encoding. */
  datatype Fetched = Plain(text: string) | Encoded(json: string) | Fails

  type Values = string -> Fetched

  function Shown(f: Fetched): Option<string>
  {
    match f
    case Plain(text) => Some(text)
    case Encoded(json) => Some(json)
    case Fails => None
  }

  function Joined(a: Option<string>, b: Option<string>): Option<string>
  {
    if a.Some? && b.Some? then Some(a.value + b.value) else None
  }

  /** The variable with this text, closing brace included. */
  function ValueOf(v: string, values: Values): Option<string>
    requires |v| >= 3
  {
    Shown(values(Name(v[..|v| - 1])))
  }

  /** The text read character by character, each variable in it replaced by its value: what a
      template is meant to give, without any splitting in advance. */
  function Expand(t: string, values: Values): Option<string>
    decreases |t|
  {
    if t == [] then Some([])
    else
      var n := IndexOf(t, '}');
      if OpensAt(t, 0) && n < |t| then Joined(ValueOf(t[..n + 1], values), Expand(t[n + 1..], values))
      else Joined(Some([t[0]]), Expand(t[1..], values))
  }

  predicate Renderable(pieces: seq<Piece>)
  {
    forall p :: p in pieces && p.Variable? ==> |p.text| >= 3
  }

  function Rendered(pieces: seq<Piece>, values: Values): Option<string>
    requires Renderable(pieces)
  {
    if pieces == [] then Some([])
    else
      var first := pieces[0];
      Joined(if first.Literal? then Some(first.text) else ValueOf(first.text, values), Rendered(pieces[1..], values))
  }

  lemma JoinedEmpty(s: string, o: Option<string>)
    ensures Joined(Some([]), o) == o && Joined(Some(s), Some([])) == Some(s)
  {
    assert s + [] == s;
    assert o.Some? ==> [] + o.value == o.value;
  }

  lemma JoinedTwice(a: string, b: string, o: Option<string>)
    ensures Joined(Some(a), Joined(Some(b), o)) == Joined(Some(a + b), o)
  {
    if o.Some? {
      assert a + (b + o.value) == a + b + o.value;
    }
  }

  lemma NoOpeningInFront(s: string, u: string)
    requires s != [] && !HasOpening(s) && (u == [] || OpensAt(u, 0))
    ensures !OpensAt(s + u, 0)
  {
    assert !OpensAt(s, 0);
  }

  lemma ExpandCharacter(s: string, u: string, values: Values)
    requires s != [] && !HasOpening(s) && (u == [] || OpensAt(u, 0))
    ensures Expand(s + u, values) == Joined(Some([s[0]]), Expand(s[1..] + u, values))
  {
    NoOpeningInFront(s, u);
    assert (s + u)[1..] == s[1..] + u;
  }

  lemma {:induction false} ExpandLiteral(s: string, u: string, values: Values)
    requires !HasOpening(s) && (u == [] || OpensAt(u, 0))
    ensures Expand(s + u, values) == Joined(Some(s), Expand(u, values))
    decreases |s|
  {
    if s == [] {
      assert s + u == u;
      JoinedEmpty(s, Expand(u, values));
    } else {
      var rest := s[1..];
      ExpandCharacter(s, u, values);
      assert forall j :: OpensAt(rest, j) ==> OpensAt(s, j + 1);
      ExpandLiteral(rest, u, values);
      assert [s[0]] + rest == s;
      JoinedTwice([s[0]], rest, Expand(u, values));
    }
  }

  lemma ExpandVariable(v: string, w: string, values: Values)
    requires IsBraced(v)
    ensures Expand(v + w, values) == Joined(ValueOf(v, values), Expand(w, values))
  {
    var t := v + w;
    assert t[|v| - 1] == '}' && t[1] == '{';
    assert IndexOf(t, '}') == |v| - 1;
    assert t[..|v|] == v && t[|v|..] == w;
    assert OpensAt(t, 0);
  }

  lemma AfterLiteral(pieces: seq<Piece>, names: set<string>)
    requires WellFormed(pieces, names) && pieces != [] && pieces[0].Literal?
    ensures var u := Text(pieces[1..]); u == [] || OpensAt(u, 0)
  {
    if |pieces| > 1 {
      assert pieces[1].Variable? && pieces[1..][0] == pieces[1];
    }
  }

  /** Rendering the pieces of a text is replacing the variables in the text. */
  lemma {:induction false} RenderingIsExpanding(pieces: seq<Piece>, names: set<string>, values: Values)
    requires WellFormed(pieces, names)
    ensures Renderable(pieces)
    ensures Rendered(pieces, values) == Expand(Text(pieces), values)
    decreases |pieces|
  {
    if pieces == [] {
    } else {
      RenderingIsExpanding(pieces[1..], names, values);
      var u := Text(pieces[1..]);
      if pieces[0].Literal? {
        AfterLiteral(pieces, names);
        ExpandLiteral(pieces[0].text, u, values);
      } else {
        ExpandVariable(pieces[0].text, u, values);
      }
    }
  }

  /** With one variable in it, the text around it and the value of the trimmed name: texts and encoded
      values are put in as they are, and an error fails. */
  lemma RenderingOne(before: string, name: string, after: string, values: Values)
    requires !HasOpening(before) && !HasOpening(after) && '}' !in name
    ensures
      var t, f := before + ("${" + name + "}") + after, values(Trimmed(name));
      Expand(t, values) ==
        if f.Plain? then Some(before + f.text + after) else if f.Encoded? then Some(before + f.json + after) else None
  {
    hide Expand, HasOpening, Trimmed;
    var v := Braced(name);
    Grouped(before, v, after);
    ExpandLiteral(before, v + after, values);
    ExpandVariable(v, after, values);
    ExpandLiteral(after, [], values);
    ExpandNothing(after, values);
    assert v[..|v| - 1][2..] == name;
    var value := ValueOf(v, values);
    if value.Some? {
      JoinedTwice(before, value.value, Some(after));
    }
  }

  lemma ExpandNothing(after: string, values: Values)
    ensures after + [] == after && Expand([], values) == Some([])
  {
  }

  method Render(pieces: seq<Piece>, values: Values) returns (r: Option<string>)
    requires Renderable(pieces)
    ensures r == Rendered(pieces, values)
  {
    var built := [];
    var i := 0;
    assert pieces[0..] == pieces;
    JoinedEmpty(built, Rendered(pieces, values));
    while i < |pieces|
      invariant 0 <= i <= |pieces|
      invariant Rendered(pieces, values) == Joined(Some(built), Rendered(pieces[i..], values))
    {
      assert pieces[i..][0] == pieces[i] && pieces[i..][1..] == pieces[i + 1..];
      match pieces[i] {
        case Literal(text) =>
          JoinedTwice(built, text, Rendered(pieces[i + 1..], values));
          built := built + text;
        case Variable(text) =>
          var value := Shown(values(Name(text[..|text| - 1])));
          if value.None? {
            return None;
          }
          JoinedTwice(built, value.value, Rendered(pieces[i + 1..], values));
          built := built + value.value;
      }
      i := i + 1;
    }
    assert pieces[i..] == [];
    JoinedEmpty(built, None);
    r := Some(built);
  }

  // ---------- the transformation ----------

  /** The variables a template may use, each with the path it stands for. A specification that is not
      a text, or not a path, is refused. Spaces around a name do not count, and of several names
      that then are the same any one may win. */
  method NewFetcher(specs: map<string, Option<string>>, isPath: string -> bool) returns (f: Option<map<string, string>>)
    ensures f.Some? <==> forall k :: k in specs ==> specs[k].Some? && isPath(specs[k].value)
    ensures f.Some? ==> forall k :: k in specs ==> Trimmed(k) in f.value
    ensures f.Some? ==>
      forall n :: n in f.value ==> exists k :: k in specs && Trimmed(k) == n && specs[k] == Some(f.value[n])
  {
    var fetcher := map[];
    var todo := specs.Keys;
    while todo != {}
      invariant todo <= specs.Keys
      invariant forall k :: k in specs && k !in todo ==>
        specs[k].Some? && isPath(specs[k].value) && Trimmed(k) in fetcher
      invariant forall n :: n in fetcher ==> exists k :: k in specs && Trimmed(k) == n && specs[k] == Some(fetcher[n])
      decreases todo
    {
      var k :| k in todo;
      todo := todo - {k};
      if specs[k].None? || !isPath(specs[k].value) {
        return None;
      }
      fetcher := fetcher[Trimmed(k) := specs[k].value];
    }
    f := Some(fetcher);
  }

  /** Without a template every event becomes null. */
  datatype Compiled = Null | Template(pieces: seq<Piece>) | Refused | Crashed

  /** The pieces are a reading of the text that the tokenizer survives and that passes the syntax check. */
  ghost predicate Acceptable(pieces: seq<Piece>, t: string, names: set<string>, isJson: string -> bool)
  {
    && Reads(pieces, t, names)
    && pieces != [] && pieces[0].Literal? && !EndsInDollar(t)
    && isJson(Numbered(t, false))
  }

  lemma StartsInPieces(pieces: seq<Piece>, t: string, names: set<string>)
    requires Reads(pieces, t, names) && t != []
    ensures pieces != [] && (pieces[0].Variable? <==> StartsWithVariable(t, names))
  {
    var first := pieces[0].text;
    var u := Text(pieces[1..]);
    assert t == first + u;
    if pieces[0].Variable? {
      assert t[|first| - 1] == '}' && t[1] == '{';
      assert IndexOf(t, '}') == |first| - 1;
      assert t[..|first| - 1] == first[..|first| - 1];
      assert OpensAt(t, 0);
    } else {
      AfterLiteral(pieces, names);
      NoOpeningInFront(first, u);
    }
  }

  /** A template is compiled exactly if it can be read, starts with a literal, does not end in a
      dollar sign and passes the syntax check; it crashes if its first piece is a known variable, or if it
      can be read and ends in a dollar sign. */
  method NewTransformation(tmpl: Option<string>, names: set<string>, isJson: string -> bool) returns (c: Compiled)
    ensures c.Null? <==> tmpl.None? || tmpl.value == []
    ensures c.Template? ==> Acceptable(c.pieces, tmpl.value, names, isJson)
    ensures tmpl.Some? && tmpl.value != [] ==> forall p :: Acceptable(p, tmpl.value, names, isJson) ==> c == Template(p)
    ensures tmpl.Some? && tmpl.value != [] ==>
      (c.Crashed? <==>
         StartsWithVariable(tmpl.value, names) || (EndsInDollar(tmpl.value) && exists p :: Reads(p, tmpl.value, names)))
  {
    if tmpl.None? || tmpl.value == [] {
      return Null;
    }
    hide Split, Checked, Numbered, Reads, StartsWithVariable, EndsInDollar;
    var t := tmpl.value;
    var o, check := Tokenize(t, names);
    ReadingAndSplitting(t, names, Split(t, names));
    match o {
      case Panics => c := Crashed;
      case Parsed(pieces) => c := if isJson(check) then Template(pieces) else Refused;
      case _ => c := Refused;
    }
  }

  /** What the outcome of splitting says about the readings of a text. */
  lemma ReadingAndSplitting(t: string, names: set<string>, o: Outcome)
    requires t != [] && o == Split(t, names)
    ensures o.Parsed? ==> Reads(o.pieces, t, names)
    ensures o.Parsed? ==> o.pieces != [] && (o.pieces[0].Variable? <==> StartsWithVariable(t, names))
    ensures forall p :: Reads(p, t, names) ==> o == Parsed(p)
  {
    if o.Parsed? {
      SplitIsLossless(t, names);
      StartsInPieces(o.pieces, t, names);
    }
    forall p | Reads(p, t, names)
      ensures o == Parsed(p)
    {
      SplitIsUnique(p, t, names);
    }
  }

  /** An event transformed by a compiled template: the text with its variables replaced, if that is
      well-formed, and an error otherwise. */
  method Apply(ghost t: string, ghost names: set<string>, pieces: seq<Piece>, values: Values, isJson: string -> bool)
    returns (r: Option<string>)
    requires Reads(pieces, t, names)
    ensures r == (var e := Expand(t, values); if e.Some? && isJson(e.value) then e else None)
  {
    RenderingIsExpanding(pieces, names, values);
    r := Render(pieces, values);
    if r.Some? && !isJson(r.value) {
      r := None;
    }
  }
}
