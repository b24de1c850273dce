/** The manifest reader reads back what is written: escaped outputs, lines wrapped anywhere outside an escape, any other
    lines between (ninja_deps_guard.py:107-171). */
module NinjaLayout {
  import opened Options
  import opened Strings
  import opened NinjaManifest

  /* ---------------------------------------------------------------- layouts */

  /** An output of an edge, and the separators after it. */
  datatype Out = Out(name: string, gap: string)

  datatype Line = EdgeLine(outs: seq<Out>, tail: string) | OtherLine(text: string)

  function Escape(c: char): string {
    if c == ' ' || c == ':' || c == '$' then ['$', c] else [c]
  }

  function Escaped(name: string): string {
    if name == "" then "" else Escape(name[0]) + Escaped(name[1..])
  }

  function OutsText(outs: seq<Out>): string {
    if outs == [] then "" else Escaped(outs[0].name) + (outs[0].gap + OutsText(outs[1..]))
  }

  function EdgeText(outs: seq<Out>, tail: string): string {
    "build " + (OutsText(outs) + (":" + tail))
  }

  function LineText(line: Line): string {
    match line
    case EdgeLine(outs, tail) => EdgeText(outs, tail)
    case OtherLine(text) => text
  }

  /** Names that are not empty and hold no bar, apart by blanks and bars. */
  predicate LegalOuts(outs: seq<Out>) {
    outs == []
    || (outs[0].name != "" && '|' !in outs[0].name && (forall c <- outs[0].gap :: c == ' ' || c == '|')
        && (|outs| > 1 ==> outs[0].gap != "") && LegalOuts(outs[1..]))
  }

  predicate LegalLine(line: Line) {
    match line
    case EdgeLine(outs, tail) => outs != [] && LegalOuts(outs)
    case OtherLine(text) => !StartsWith(text, "build ")
  }

  function NamesOf(outs: seq<Out>): seq<string> {
    if outs == [] then [] else [outs[0].name] + NamesOf(outs[1..])
  }

  /** The first output of each edge whose rule is among the rules, in order. */
  function Listed(lines: seq<Line>, rules: set<string>): seq<string> {
    if lines == [] then []
    else
      (if lines[0].EdgeLine? && lines[0].outs != [] && FirstWord(lines[0].tail, 0).Some?
          && FirstWord(lines[0].tail, 0).value in rules then [lines[0].outs[0].name] else [])
      + Listed(lines[1..], rules)
  }

  /* ---------------------------------------------------------------- one edge */

  lemma {:induction false} NameReads(text: string, pos: nat, name: string, current: string, tokens: seq<string>,
                                     variables: map<string, string>, end: nat)
    requires At(text, pos, Escaped(name)) && '|' !in name && end == pos + |Escaped(name)|
    ensures FirstFrom(text, pos, current, tokens, variables) == FirstFrom(text, end, current + name, tokens, variables)
    decreases |name|
  {
    hide FirstFrom, At, Escape;
    if name == "" {
      assert current + "" == current;
    } else {
      var c, first := name[0], Escape(name[0]);
      var next := pos + |first|;
      AtSplit(text, pos, first, Escaped(name[1..]));
      CharReads(text, pos, c, next, current, tokens, variables);
      assert c in name && forall d <- name[1..] :: d in name;
      NameReads(text, next, name[1..], current + [c], tokens, variables, end);
      assert (current + [c]) + name[1..] == current + name;
    }
  }

  lemma CharReads(text: string, pos: nat, c: char, next: nat, current: string, tokens: seq<string>,
                  variables: map<string, string>)
    requires At(text, pos, Escape(c)) && c != '|' && next == pos + |Escape(c)|
    ensures FirstFrom(text, pos, current, tokens, variables) == FirstFrom(text, next, current + [c], tokens, variables)
  {
    var first := Escape(c);
    assert text[pos] == first[0];
    if |first| == 2 {
      assert At(text, pos + 1, first[1..]) && first[1..][0] == c;
      assert text[pos + 1] == c;
    }
    assert StepAt(text, pos, variables) == Add([c], next);
    FirstStep(text, pos, current, tokens, variables, Add([c], next));
  }

  lemma {:induction false} GapReads(text: string, pos: nat, gap: string, current: string, tokens: seq<string>,
                                    variables: map<string, string>, end: nat)
    requires At(text, pos, gap) && gap != "" && (forall c <- gap :: c == ' ' || c == '|') && end == pos + |gap|
    ensures FirstFrom(text, pos, current, tokens, variables) == FirstFrom(text, end, "", Pushed(tokens, current), variables)
    decreases |gap|
  {
    assert gap[0] in gap && forall c <- gap[1..] :: c in gap;
    FirstStep(text, pos, current, tokens, variables, Separate);
    if |gap| > 1 { GapReads(text, pos + 1, gap[1..], "", Pushed(tokens, current), variables, end); }
  }

  function Ended(all: seq<string>, rule: Option<string>): Option<BuildEdge> {
    if all == [] || rule.None? then None else Some(BuildEdge(all[0], rule.value))
  }

  lemma ColonReads(text: string, pos: nat, current: string, tokens: seq<string>, variables: map<string, string>)
    requires pos < |text| && text[pos] == ':'
    ensures FirstFrom(text, pos, current, tokens, variables) == Ended(Pushed(tokens, current), FirstWord(text, pos + 1))
  {
    FirstStep(text, pos, current, tokens, variables, Colon);
  }

  /** The first output and the separators after it. */
  lemma OutReads(text: string, pos: nat, out: Out, rest: string, tokens: seq<string>, variables: map<string, string>,
                 mid: nat, next: nat)
    requires At(text, pos, Escaped(out.name) + (out.gap + rest)) && mid == pos + |Escaped(out.name)| && next == mid + |out.gap|
    requires '|' !in out.name && out.name != "" && forall c <- out.gap :: c == ' ' || c == '|'
    ensures At(text, next, rest)
    ensures out.gap != "" ==>
              FirstFrom(text, pos, "", tokens, variables) == FirstFrom(text, next, "", tokens + [out.name], variables)
    ensures out.gap == "" ==>
              FirstFrom(text, pos, "", tokens, variables) == FirstFrom(text, next, out.name, tokens, variables)
  {
    hide StepAt, FirstWord, Escaped, FirstFrom, At;
    AtSplit(text, pos, Escaped(out.name), out.gap + rest);
    AtSplit(text, mid, out.gap, rest);
    NameReads(text, pos, out.name, "", tokens, variables, mid);
    assert "" + out.name == out.name;
    if out.gap != "" { GapReads(text, mid, out.gap, out.name, tokens, variables, next); }
  }

  /** Up to the colon, every name becomes a token. */
  lemma {:induction false} OutsRead(text: string, pos: nat, outs: seq<Out>, tokens: seq<string>,
                                    variables: map<string, string>, end: nat)
    requires At(text, pos, OutsText(outs)) && LegalOuts(outs) && end == pos + |OutsText(outs)|
    requires end < |text| && text[end] == ':'
    ensures FirstFrom(text, pos, "", tokens, variables) == Ended(tokens + NamesOf(outs), FirstWord(text, end + 1))
    decreases |outs|
  {
    hide FirstFrom, FirstWord, Escaped, At;
    if outs == [] {
      ColonReads(text, pos, "", tokens, variables);
      assert tokens + [] == tokens;
    } else {
      var name := outs[0].name;
      var mid := pos + |Escaped(name)|;
      var next := mid + |outs[0].gap|;
      OutReads(text, pos, outs[0], OutsText(outs[1..]), tokens, variables, mid, next);
      if outs[0].gap != "" {
        OutsRead(text, next, outs[1..], tokens + [name], variables, end);
        assert (tokens + [name]) + NamesOf(outs[1..]) == tokens + NamesOf(outs);
      } else {
        LastOut(outs);
        ColonReads(text, next, name, tokens, variables);
      }
    }
  }

  lemma LastOut(outs: seq<Out>)
    requires outs != [] && LegalOuts(outs) && outs[0].gap == ""
    ensures NamesOf(outs) == [outs[0].name] && OutsText(outs) == Escaped(outs[0].name)
  {
    assert outs[1..] == [];
    assert OutsText(outs) == Escaped(outs[0].name) + ("" + "");
  }

  lemma {:induction false} WordsWithin(text: string, pos: nat, tail: string, k: nat)
    requires At(text, pos, tail) && pos + |tail| == |text| && k <= |tail|
    ensures WordStart(text, pos + k) == pos + WordStart(tail, k) && WordEnd(text, pos + k) == pos + WordEnd(tail, k)
    decreases |tail| - k
  {
    if k < |tail| {
      AtChar(text, pos, tail, k);
      WordsWithin(text, pos, tail, k + 1);
    }
  }

  lemma {:induction false} PartSlice(text: string, pos: nat, part: string, a: nat, b: nat)
    requires At(text, pos, part) && a <= b <= |part|
    ensures text[pos + a..pos + b] == part[a..b]
  {
    forall k | a <= k < b ensures text[pos + k] == part[k] { AtChar(text, pos, part, k); }
    assert forall k :: 0 <= k < b - a ==> text[pos + a..pos + b][k] == text[pos + (a + k)] && part[a..b][k] == part[a + k];
  }

  lemma RuleReads(text: string, pos: nat, tail: string)
    requires At(text, pos, tail) && pos + |tail| == |text|
    ensures FirstWord(text, pos) == FirstWord(tail, 0)
  {
    hide At, WordStart, WordEnd;
    WordsWithin(text, pos, tail, 0);
    var start := WordStart(tail, 0);
    if start < |tail| {
      WordsWithin(text, pos, tail, start);
      PartSlice(text, pos, tail, start, WordEnd(tail, start));
    }
  }

  /** Where the parts of an edge's line stand. */
  lemma EdgeParts(outs: seq<Out>, tail: string, end: nat)
    requires end == 6 + |OutsText(outs)|
    ensures var text := EdgeText(outs, tail);
            At(text, 0, "build ") && At(text, 6, OutsText(outs)) && end < |text| && text[end] == ':'
            && At(text, end + 1, tail) && end + 1 + |tail| == |text|
  {
    var text := EdgeText(outs, tail);
    AtWhole(text, 0);
    assert text[0..] == text;
    AtSplit(text, 0, "build ", OutsText(outs) + (":" + tail));
    AtSplit(text, 6, OutsText(outs), ":" + tail);
    AtSplit(text, end, ":", tail);
  }

  /** AN EDGE READS BACK: the first output, unescaped, and the rule. */
  lemma EdgeReads(outs: seq<Out>, tail: string, variables: map<string, string>)
    requires outs != [] && LegalOuts(outs)
    ensures FirstOutput(EdgeText(outs, tail), variables)
            == if FirstWord(tail, 0).None? then None else Some(BuildEdge(outs[0].name, FirstWord(tail, 0).value))
    ensures StartsWith(EdgeText(outs, tail), "build ")
  {
    hide FirstFrom, At, OutsText, LegalOuts, FirstWord, EdgeText;
    var text, end := EdgeText(outs, tail), 6 + |OutsText(outs)|;
    EdgeParts(outs, tail, end);
    OutsRead(text, 6, outs, [], variables, end);
    RuleReads(text, end + 1, tail);
    assert [] + NamesOf(outs) == NamesOf(outs);
  }

  /* ---------------------------------------------------------------- wrapped lines */

  function Concat(fragments: seq<string>): string {
    if fragments == [] then "" else fragments[0] + Concat(fragments[1..])
  }

  /** The raw lines of a logical line: every fragment but the last ends in a continuation. */
  function RawOf(fragments: seq<string>): seq<string> {
    if |fragments| <= 1 then fragments else [fragments[0] + "$"] + RawOf(fragments[1..])
  }

  function RawsOf(laid: seq<seq<string>>): seq<string> {
    if laid == [] then [] else RawOf(laid[0]) + RawsOf(laid[1..])
  }

  function Written(raws: seq<string>): string {
    if raws == [] then "" else raws[0] + ("\n" + Written(raws[1..]))
  }

  predicate Unbroken(s: string) {
    forall c <- s :: !Boundary(c)
  }

  /** A fragment that breaks no line and ends in no open escape. */
  predicate LegalFragment(fragment: string) {
    Unbroken(fragment) && Trailing(fragment) % 2 == 0
  }

  predicate LegalWrap(fragments: seq<string>) {
    fragments != [] && forall f <- fragments :: LegalFragment(f)
  }

  lemma {:induction false} LineEndIs(line: string, rest: string)
    requires Unbroken(line)
    ensures LineEnd(line + ("\n" + rest)) == |line|
  {
    var text := line + ("\n" + rest);
    if line != "" {
      assert line[0] in line && text[0] == line[0] && text[1..] == line[1..] + ("\n" + rest);
      assert forall c <- line[1..] :: c in line;
      LineEndIs(line[1..], rest);
    }
  }

  lemma {:induction false} LinesWritten(raws: seq<string>)
    requires forall raw <- raws :: Unbroken(raw)
    ensures Lines(Written(raws)) == raws
  {
    if raws != [] {
      var rest := Written(raws[1..]);
      var text := raws[0] + ("\n" + rest);
      assert raws[0] in raws && forall raw <- raws[1..] :: raw in raws;
      LineEndIs(raws[0], rest);
      assert text[..|raws[0]|] == raws[0] && text[|raws[0]| + 1..] == rest;
      LinesWritten(raws[1..]);
    }
  }

  lemma {:induction false} RawsUnbroken(fragments: seq<string>)
    requires forall f <- fragments :: Unbroken(f)
    ensures forall raw <- RawOf(fragments) :: Unbroken(raw)
  {
    if |fragments| > 1 {
      assert fragments[0] in fragments && forall f <- fragments[1..] :: f in fragments;
      RawsUnbroken(fragments[1..]);
    }
  }

  lemma DollarAfter(fragment: string)
    ensures Trailing(fragment + "$") == 1 + Trailing(fragment) && (fragment + "$")[..|fragment|] == fragment
  {
  }

  /** A wrapped line's raw lines are joined into it. */
  lemma {:induction false} WrapJoins(fragments: seq<string>, more: seq<string>, pending: string)
    requires LegalWrap(fragments)
    ensures Logical(RawOf(fragments) + more, pending) == [pending + Concat(fragments)] + Logical(more, "")
    decreases |fragments|
  {
    hide Trailing, Unbroken;
    var first := fragments[0];
    assert first in fragments;
    if |fragments| == 1 {
      assert (fragments + more)[0] == first && (fragments + more)[1..] == more;
      assert fragments[1..] == [] && first + "" == first;
    } else {
      var all, rest := RawOf(fragments) + more, RawOf(fragments[1..]) + more;
      assert all[0] == first + "$" && all[1..] == rest;
      DollarAfter(first);
      assert forall f <- fragments[1..] :: f in fragments;
      WrapJoins(fragments[1..], more, pending + first);
      assert (pending + first) + Concat(fragments[1..]) == pending + Concat(fragments);
    }
  }

  function Joined(laid: seq<seq<string>>): seq<string> {
    if laid == [] then [] else [Concat(laid[0])] + Joined(laid[1..])
  }

  lemma {:induction false} LogicalOfRaws(laid: seq<seq<string>>)
    requires forall fragments <- laid :: LegalWrap(fragments)
    ensures Logical(RawsOf(laid), "") == Joined(laid)
  {
    if laid != [] {
      assert laid[0] in laid && forall f <- laid[1..] :: f in laid;
      WrapJoins(laid[0], RawsOf(laid[1..]), "");
      assert "" + Concat(laid[0]) == Concat(laid[0]);
      LogicalOfRaws(laid[1..]);
    }
  }

  lemma {:induction false} AllUnbroken(laid: seq<seq<string>>)
    requires forall fragments <- laid :: LegalWrap(fragments)
    ensures forall raw <- RawsOf(laid) :: Unbroken(raw)
  {
    if laid != [] {
      assert laid[0] in laid && forall f <- laid[1..] :: f in laid;
      RawsUnbroken(laid[0]);
      AllUnbroken(laid[1..]);
    }
  }

  /* ---------------------------------------------------------------- the manifest */

  lemma {:induction false} EdgesAreListed(lines: seq<Line>, texts: seq<string>, variables: map<string, string>,
                                          rules: set<string>)
    requires |texts| == |lines| && forall i :: 0 <= i < |lines| ==> LegalLine(lines[i]) && texts[i] == LineText(lines[i])
    ensures EdgesFrom(texts, variables, rules) == Listed(lines, rules)
    decreases |lines|
  {
    if lines != [] {
      match lines[0] {
        case EdgeLine(outs, tail) =>
          EdgeReads(outs, tail, variables);
          EdgesAreListed(lines[1..], texts[1..], variables, rules);
        case OtherLine(_) =>
          EdgesAreListed(lines[1..], texts[1..], Bound(variables, texts[0]), rules);
      }
    }
  }

  lemma {:induction false} JoinedIs(laid: seq<seq<string>>)
    ensures |Joined(laid)| == |laid| && forall i :: 0 <= i < |laid| ==> Joined(laid)[i] == Concat(laid[i])
  {
    if laid != [] { JoinedIs(laid[1..]); }
  }

  /** THE MANIFEST READS BACK: whatever way its lines are wrapped outside escapes, the reader lists the first output of
      exactly the edges whose rule is among the rules, in order. */
  lemma ManifestReads(lines: seq<Line>, laid: seq<seq<string>>, rules: set<string>)
    requires |laid| == |lines| && forall fragments <- laid :: LegalWrap(fragments)
    requires forall i :: 0 <= i < |lines| ==> LegalLine(lines[i]) && Concat(laid[i]) == LineText(lines[i])
    ensures DepsEdges(Written(RawsOf(laid)), rules) == Listed(lines, rules)
  {
    AllUnbroken(laid);
    LinesWritten(RawsOf(laid));
    LogicalOfRaws(laid);
    JoinedIs(laid);
    EdgesAreListed(lines, Joined(laid), map[], rules);
  }

  /* ---------------------------------------------------------------- names that break a line */

  /** The outputs up to the first boundary in a name. */
  function CutText(outs: seq<Out>): string {
    if outs == [] then ""
    else
      var name := outs[0].name;
      if Unbroken(name) then Escaped(name) + (outs[0].gap + CutText(outs[1..])) else Escaped(name[..LineEnd(name)])
  }

  /** What stands before the first boundary. */
  function FirstLine(text: string): string {
    text[..LineEnd(text)]
  }

  predicate SomeBroken(outs: seq<Out>) {
    outs != [] && (!Unbroken(outs[0].name) || SomeBroken(outs[1..]))
  }

  lemma {:induction false} LineEndPast(a: string, b: string)
    requires Unbroken(a)
    ensures LineEnd(a + b) == |a| + LineEnd(b)
  {
    if a == "" {
      assert a + b == b;
    } else {
      assert a[0] in a && (a + b)[0] == a[0] && (a + b)[1..] == a[1..] + b && forall c <- a[1..] :: c in a;
      LineEndPast(a[1..], b);
    }
  }

  lemma {:induction false} EscapedUnbroken(name: string)
    requires Unbroken(name)
    ensures Unbroken(Escaped(name))
  {
    if name != "" {
      assert name[0] in name && forall c <- name[1..] :: c in name;
      EscapedUnbroken(name[1..]);
    }
  }

  lemma {:induction false} EscapedJoin(a: string, b: string)
    ensures Escaped(a + b) == Escaped(a) + Escaped(b)
  {
    if a == "" {
      assert a + b == b;
    } else {
      assert (a + b)[0] == a[0] && (a + b)[1..] == a[1..] + b;
      EscapedJoin(a[1..], b);
    }
  }

  lemma {:induction false} BrokenAt(name: string)
    requires !Unbroken(name)
    ensures LineEnd(name) < |name| && Boundary(name[LineEnd(name)]) && Unbroken(name[..LineEnd(name)])
  {
    if !Boundary(name[0]) {
      assert forall c <- name :: c == name[0] || c in name[1..];
      BrokenAt(name[1..]);
      assert name[..LineEnd(name)] == [name[0]] + name[1..][..LineEnd(name[1..])];
    }
  }

  lemma EscapedStarts(name: string, more: string)
    requires name != "" && Boundary(name[0])
    ensures LineEnd(Escaped(name) + more) == 0
  {
    assert Escape(name[0]) == [name[0]];
  }

  lemma EscapedParts(a: string, b: string, more: string)
    ensures Escaped(a + b) + more == Escaped(a) + (Escaped(b) + more)
  {
    hide *;
    EscapedJoin(a, b);
    Regroup(Escaped(a), Escaped(b), "", more);
    assert "" + more == more && Escaped(b) + "" == Escaped(b);
  }

  /** The line of a broken name ends where the name breaks. */
  lemma BrokenNameCuts(name: string, more: string)
    requires !Unbroken(name)
    ensures var cut := Escaped(name[..LineEnd(name)]);
            LineEnd(Escaped(name) + more) == |cut| && (Escaped(name) + more)[..|cut|] == cut
  {
    hide *;
    BrokenAt(name);
    var k := LineEnd(name);
    var cut, rest := Escaped(name[..k]), Escaped(name[k..]) + more;
    EscapedParts(name[..k], name[k..], more);
    assert name == name[..k] + name[k..];
    EscapedUnbroken(name[..k]);
    EscapedStarts(name[k..], more);
    LineEndPast(cut, rest);
    TakePast(cut, rest, 0);
    assert rest[..0] == "" && cut + "" == cut;
  }

  lemma FrontUnbroken(out: Out)
    requires Unbroken(out.name) && forall c <- out.gap :: c == ' ' || c == '|'
    ensures Unbroken(Escaped(out.name) + out.gap)
  {
    EscapedUnbroken(out.name);
  }

  lemma OutsRegroup(outs: seq<Out>, more: string, front: string, rest: string)
    requires outs != [] && front == Escaped(outs[0].name) + outs[0].gap && rest == OutsText(outs[1..]) + more
    ensures OutsText(outs) + more == front + rest
    ensures Unbroken(outs[0].name) ==> CutText(outs) == front + CutText(outs[1..])
  {
    Regroup(Escaped(outs[0].name), outs[0].gap, OutsText(outs[1..]), more);
    Regroup(Escaped(outs[0].name), outs[0].gap, CutText(outs[1..]), "");
    hide Escaped;
  }

  lemma Regroup(a: string, b: string, c: string, d: string)
    ensures (a + (b + c)) + d == (a + b) + (c + d) && a + (b + c) == (a + b) + c
  {
  }

  /** The first raw line of an edge some name of which breaks: its outputs up to there. */
  lemma {:induction false} FirstLineCut(outs: seq<Out>, more: string)
    requires LegalOuts(outs) && SomeBroken(outs)
    ensures LineEnd(OutsText(outs) + more) == |CutText(outs)| && (OutsText(outs) + more)[..|CutText(outs)|] == CutText(outs)
  {
    if !Unbroken(outs[0].name) {
      BrokenNameCuts(outs[0].name, outs[0].gap + OutsText(outs[1..]) + more);
      assert OutsText(outs) + more == Escaped(outs[0].name) + (outs[0].gap + OutsText(outs[1..]) + more);
    } else {
      hide LineEnd, Escaped;
      FirstLineCut(outs[1..], more);
      FrontUnbroken(outs[0]);
      var front, rest := Escaped(outs[0].name) + outs[0].gap, OutsText(outs[1..]) + more;
      OutsRegroup(outs, more, front, rest);
      CutAfter(front, rest, CutText(outs[1..]));
    }
  }

  lemma CutAfter(front: string, rest: string, cut: string)
    requires Unbroken(front) && LineEnd(rest) == |cut| && rest[..|cut|] == cut
    ensures LineEnd(front + rest) == |front + cut| && (front + rest)[..|front + cut|] == front + cut
  {
    LineEndPast(front, rest);
  }

  /** The outputs cut short lead to no colon, and so to no edge. */
  lemma {:induction false} CutReadsNothing(text: string, pos: nat, outs: seq<Out>, tokens: seq<string>,
                                           variables: map<string, string>)
    requires LegalOuts(outs) && SomeBroken(outs) && At(text, pos, CutText(outs)) && pos + |CutText(outs)| == |text|
    ensures FirstFrom(text, pos, "", tokens, variables) == None
    decreases |outs|
  {
    var out := outs[0];
    if !Unbroken(out.name) {
      BrokenAt(out.name);
      var cut := out.name[..LineEnd(out.name)];
      assert forall c <- cut :: c in out.name;
      NameReads(text, pos, cut, "", tokens, variables, |text|);
    } else {
      var mid := pos + |Escaped(out.name)|;
      var next := mid + |out.gap|;
      OutReads(text, pos, out, CutText(outs[1..]), tokens, variables, mid, next);
      CutReadsNothing(text, next, outs[1..], tokens + [out.name], variables);
    }
  }

  lemma {:induction false} NoneBroken(outs: seq<Out>)
    requires LegalOuts(outs) && !SomeBroken(outs)
    ensures Unbroken(OutsText(outs))
  {
    if outs != [] {
      EscapedUnbroken(outs[0].name);
      NoneBroken(outs[1..]);
    }
  }

  /** An edge's text, cut at its first boundary: within its outputs if some name of theirs breaks, in its tail if not. */
  lemma EdgeCut(outs: seq<Out>, tail: string)
    requires outs != [] && LegalOuts(outs)
    ensures EdgeText(outs, tail)[..LineEnd(EdgeText(outs, tail))]
            == if SomeBroken(outs) then "build " + CutText(outs) else EdgeText(outs, FirstLine(tail))
  {
    hide OutsText, CutText, LineEnd, SomeBroken, LegalOuts;
    var outsText, more := OutsText(outs), ":" + tail;
    assert Unbroken("build ");
    LineEndPast("build ", outsText + more);
    assert EdgeText(outs, tail) == "build " + (outsText + more);
    if SomeBroken(outs) {
      FirstLineCut(outs, more);
      TakePast("build ", outsText + more, LineEnd(outsText + more));
    } else {
      NoneBroken(outs);
      assert Unbroken(":");
      LineEndPast(":", tail);
      TakePast(":", tail, LineEnd(tail));
      LineEndPast(outsText, more);
      TakePast(outsText, more, LineEnd(more));
      TakePast("build ", outsText + more, LineEnd(outsText + more));
    }
  }

  lemma TakePast(front: string, rest: string, n: nat)
    requires n <= |rest|
    ensures (front + rest)[..|front| + n] == front + rest[..n]
  {
  }

  lemma CutEdgeReadsNothing(outs: seq<Out>, variables: map<string, string>)
    requires LegalOuts(outs) && SomeBroken(outs)
    ensures FirstOutput("build " + CutText(outs), variables) == None
  {
    var text := "build " + CutText(outs);
    AtWhole(text, 0);
    assert text[0..] == text;
    AtSplit(text, 0, "build ", CutText(outs));
    CutReadsNothing(text, 6, outs, [], variables);
  }

  /* ---------------------------------------------------------------- the first logical line */

  lemma {:induction false} TrailingPast(a: string, b: string)
    requires Trailing(a) % 2 == 0
    ensures Trailing(a + b) % 2 == Trailing(b) % 2
    decreases |b|
  {
    if b == "" {
      assert a + b == a;
    } else {
      assert (a + b)[..|a + b| - 1] == a + b[..|b| - 1] && (a + b)[|a + b| - 1] == b[|b| - 1];
      TrailingPast(a, b[..|b| - 1]);
    }
  }

  lemma EscapeCloses(c: char)
    ensures Trailing(Escape(c)) % 2 == 0
  {
    if c == '$' {
      assert Escape(c)[..1] == ['$'] && ['$'][..0] == "";
      assert Trailing(['$']) == 1;
    }
  }

  lemma {:induction false} EscapedCloses(name: string)
    ensures Trailing(Escaped(name)) % 2 == 0
  {
    if name != "" {
      var first := Escape(name[0]);
      EscapeCloses(name[0]);
      EscapedCloses(name[1..]);
      TrailingPast(first, Escaped(name[1..]));
    }
  }

  /** The outputs cut short end in no open escape. */
  lemma {:induction false} CutCloses(outs: seq<Out>)
    requires LegalOuts(outs)
    ensures Trailing(CutText(outs)) % 2 == 0
  {
    if outs != [] {
      var name, gap := outs[0].name, outs[0].gap;
      if Unbroken(name) {
        CutCloses(outs[1..]);
        hide LegalOuts, Unbroken;
        OutCloses(name, gap, CutText(outs[1..]));
      } else {
        EscapedCloses(name[..LineEnd(name)]);
      }
    }
  }

  lemma OutCloses(name: string, gap: string, more: string)
    requires (forall c <- gap :: c == ' ' || c == '|') && Trailing(more) % 2 == 0
    ensures Trailing(Escaped(name) + (gap + more)) % 2 == 0
  {
    assert gap != "" ==> gap[|gap| - 1] in gap;
    assert Trailing(gap) == 0;
    hide Trailing;
    EscapedCloses(name);
    TrailingPast(gap, more);
    TrailingPast(Escaped(name), gap + more);
  }

  /** A text that breaks has its first boundary whatever follows. */
  lemma BrokenFirst(f: string, after: string)
    requires !Unbroken(f)
    ensures LineEnd(f + after) == LineEnd(f) && FirstLine(f + after) == FirstLine(f)
  {
    BrokenAt(f);
    var cut := FirstLine(f);
    LineEndPast(cut, f[|cut|..] + after);
    assert f + after == cut + (f[|cut|..] + after);
  }

  /** A line that ends at its newline or before. */
  lemma LastRaw(f: string, rest: string)
    ensures FirstLine(f + ("\n" + rest)) == FirstLine(f)
  {
    if Unbroken(f) {
      LineEndIs(f, rest);
      LineEndPast(f, "");
      assert f + "" == f;
    } else {
      BrokenFirst(f, "\n" + rest);
    }
  }

  /** A raw line that is continued, and those after it. */
  lemma DollarRaw(f: string, more: string)
    requires Unbroken(f)
    ensures Lines(f + ("$" + ("\n" + more))) == [f + "$"] + Lines(more)
  {
    var text := (f + "$") + ("\n" + more);
    assert f + ("$" + ("\n" + more)) == text;
    LineEndIs(f + "$", more);
    assert text[..|f| + 1] == f + "$" && text[|f| + 2..] == more;
  }

  lemma ClosedRaw(whole: string, pending: string, line: string)
    requires whole != "" && line == FirstLine(whole) && Trailing(line) % 2 == 0
    ensures var lines := Logical(Lines(whole), pending); lines != [] && lines[0] == pending + line
  {
    hide LineEnd, Trailing;
  }

  lemma OpenRaw(raws: seq<string>, f: string, more: seq<string>, pending: string)
    requires raws == [f + "$"] + more && Trailing(f) % 2 == 0
    ensures Logical(raws, pending) == Logical(more, pending + f)
  {
    DollarAfter(f);
    hide Trailing;
    assert raws[0] == f + "$" && raws[1..] == more;
  }

  lemma OneFragment(fragments: seq<string>, rest: string)
    requires |fragments| == 1
    ensures Concat(fragments) == fragments[0] && Written(RawOf(fragments)) + rest == fragments[0] + ("\n" + rest)
  {
    assert fragments[1..] == [] && fragments[0] + "" == fragments[0];
    assert Written(fragments) == fragments[0] + ("\n" + "");
  }

  lemma MoreFragments(fragments: seq<string>, rest: string)
    requires |fragments| > 1
    ensures var more := Written(RawOf(fragments[1..])) + rest;
            Written(RawOf(fragments)) + rest == fragments[0] + ("$" + ("\n" + more))
  {
    WrittenMore(RawOf(fragments), fragments[0] + "$", RawOf(fragments[1..]));
    hide *;
    RegroupFive(fragments[0], "$", "\n", Written(RawOf(fragments[1..])), rest);
  }

  lemma WrittenMore(raws: seq<string>, first: string, others: seq<string>)
    requires raws == [first] + others
    ensures Written(raws) == first + ("\n" + Written(others))
  {
    assert raws[0] == first && raws[1..] == others;
  }

  lemma RegroupFive(a: string, b: string, c: string, d: string, e: string)
    ensures ((a + b) + (c + d)) + e == a + (b + (c + (d + e)))
  {
  }

  /** THE FIRST LOGICAL LINE of a wrapped text, whatever follows it: the text up to its first boundary. */
  lemma {:induction false} FirstLogical(fragments: seq<string>, rest: string, pending: string, text: string)
    requires fragments != [] && (forall f <- fragments :: Trailing(f) % 2 == 0) && text == Concat(fragments)
    requires Trailing(FirstLine(text)) % 2 == 0
    ensures var lines := Logical(Lines(Written(RawOf(fragments)) + rest), pending);
            lines != [] && lines[0] == pending + FirstLine(text)
    decreases |fragments|
  {
    hide Trailing, LineEnd, Lines, Logical;
    hide Written, RawOf;
    var f, whole := fragments[0], Written(RawOf(fragments)) + rest;
    assert f in fragments && forall g <- fragments[1..] :: g in fragments;
    if |fragments| == 1 {
      OneFragment(fragments, rest);
      LastRaw(f, rest);
      ClosedRaw(whole, pending, FirstLine(text));
    } else {
      var after, more := Concat(fragments[1..]), Written(RawOf(fragments[1..])) + rest;
      MoreFragments(fragments, rest);
      if Unbroken(f) {
        LineEndPast(f, after);
        TakePast(f, after, LineEnd(after));
        TrailingPast(f, FirstLine(after));
        DollarRaw(f, more);
        OpenRaw(Lines(whole), f, Lines(more), pending);
        FirstLogical(fragments[1..], rest, pending + f, after);
        assert (pending + f) + FirstLine(after) == pending + FirstLine(text);
      } else {
        BrokenFirst(f, after);
        BrokenFirst(f, "$" + ("\n" + more));
        ClosedRaw(whole, pending, FirstLine(text));
      }
    }
  }

  /** The rule is read unless a boundary stands before it. */
  lemma {:induction false} WordBeforeBoundary(tail: string, k: nat, n: nat)
    requires n == LineEnd(tail) && k <= n
    ensures WordEnd(tail[..n], k) == WordEnd(tail, k)
    ensures WordStart(tail[..n], k) == if WordStart(tail, k) < n then WordStart(tail, k) else n
    decreases n - k
  {
    LineEndIsFirst(tail);
    if k < n { WordBeforeBoundary(tail, k + 1, n); }
  }

  lemma {:induction false} LineEndIsFirst(text: string)
    ensures LineEnd(text) < |text| ==> Boundary(text[LineEnd(text)])
  {
    if text != "" && !Boundary(text[0]) { LineEndIsFirst(text[1..]); }
  }

  lemma RuleBeforeBoundary(tail: string)
    ensures FirstWord(FirstLine(tail), 0).Some? ==> FirstWord(tail, 0) == FirstWord(FirstLine(tail), 0)
    ensures Unbroken(tail) ==> FirstLine(tail) == tail
  {
    var n := LineEnd(tail);
    WordBeforeBoundary(tail, 0, n);
    var start := WordStart(tail, 0);
    if start < n {
      WordBeforeBoundary(tail, start, n);
      assert tail[..n][start..WordEnd(tail, start)] == tail[start..WordEnd(tail, start)];
    }
    if Unbroken(tail) {
      LineEndPast(tail, "");
      assert tail + "" == tail;
    }
  }

  /** A layout of an edge's line that ends in no open escape, even where its tail breaks. */
  predicate LaysEdge(fragments: seq<string>, outs: seq<Out>, tail: string) {
    fragments != [] && (forall f <- fragments :: Trailing(f) % 2 == 0) && Concat(fragments) == EdgeText(outs, tail)
    && Trailing(FirstLine(tail)) % 2 == 0
  }

  /** What the reader makes of an edge wrapped in any way, whatever lines follow. */
  lemma EdgeReading(outs: seq<Out>, tail: string, fragments: seq<string>, rest: string, variables: map<string, string>)
    requires outs != [] && LegalOuts(outs) && LaysEdge(fragments, outs, tail)
    ensures var lines := Logical(Lines(Written(RawOf(fragments)) + rest), "");
            lines != []
            && FirstOutput(lines[0], variables)
               == if SomeBroken(outs) || FirstWord(FirstLine(tail), 0).None? then None
                  else Some(BuildEdge(outs[0].name, FirstWord(FirstLine(tail), 0).value))
  {
    var text := EdgeText(outs, tail);
    EdgeCut(outs, tail);
    EdgeCloses(outs, FirstLine(tail));
    hide EdgeText, CutText, SomeBroken, LegalOuts, FirstWord, FirstOutput, LineEnd, Logical, Lines, Trailing;
    FirstLogical(fragments, rest, "", text);
    assert "" + FirstLine(text) == FirstLine(text);
    if SomeBroken(outs) {
      CutEdgeReadsNothing(outs, variables);
    } else {
      EdgeReads(outs, FirstLine(tail), variables);
    }
  }

  lemma ClosedBy(front: string)
    requires front != "" && front[|front| - 1] != '$'
    ensures Trailing(front) == 0
  {
  }

  lemma EdgeCloses(outs: seq<Out>, tail: string)
    requires LegalOuts(outs) && Trailing(tail) % 2 == 0
    ensures Trailing(EdgeText(outs, tail)) % 2 == 0 && Trailing("build " + CutText(outs)) % 2 == 0
  {
    hide Trailing, OutsText, CutText, LegalOuts;
    var front := "build " + (OutsText(outs) + ":");
    ClosedBy(front);
    ClosedBy("build ");
    TrailingPast(front, tail);
    assert EdgeText(outs, tail) == front + tail;
    CutCloses(outs);
    TrailingPast("build ", CutText(outs));
  }

  /** WHEN AN EDGE IS READ: of an edge wrapped in any way, whatever lines follow it, the reader recovers the first
      output and the rule if and only if no name of an output holds a character, newline or other, at which
      `str.splitlines` ends a line, and the rule stands before any such character of the rest. */
  lemma EdgeReadIff(outs: seq<Out>, tail: string, fragments: seq<string>, rest: string, variables: map<string, string>)
    requires outs != [] && LegalOuts(outs) && LaysEdge(fragments, outs, tail) && FirstWord(tail, 0).Some?
    ensures var lines := Logical(Lines(Written(RawOf(fragments)) + rest), "");
            lines != []
            && (FirstOutput(lines[0], variables) == Some(BuildEdge(outs[0].name, FirstWord(tail, 0).value))
                <==> !SomeBroken(outs) && FirstWord(FirstLine(tail), 0).Some?)
  {
    hide *;
    EdgeReading(outs, tail, fragments, rest, variables);
    RuleBeforeBoundary(tail);
  }

  /** A FORM FEED in a name loses the edge, though ninja itself ends lines at newlines alone: of a manifest that holds
      nothing but such an edge, whatever its rule, the reader lists no output. */
  lemma FormFeedLosesTheEdge(tail: string, rules: set<string>)
    requires Unbroken(tail) && Trailing(tail) % 2 == 0
    ensures var outs := [Out(['a', 0x0C as char, 'b'], "")];
            LegalOuts(outs) && DepsEdges(Written([EdgeText(outs, tail)]), rules) == []
  {
    hide *;
    var outs := [Out(['a', 0x0C as char, 'b'], "")];
    var rest := "b:" + tail;
    FormFeedText(outs, tail, rest);
    FormFeedCuts(outs);
    CutEdgeReadsNothing(outs, map[]);
    assert "build " + "a" == "build a";
    FormFeedLines(tail, rest);
    NoEdges(Written([EdgeText(outs, tail)]), "build a", rest, rules);
  }

  lemma FormFeedLines(tail: string, rest: string)
    requires Unbroken(tail) && Trailing(tail) % 2 == 0 && rest == "b:" + tail
    ensures Lines(Written(["build a" + ([0x0C as char] + rest)])) == ["build a", rest]
    ensures StartsWith("build a", "build ") && !StartsWith(rest, "build ")
    ensures Trailing("build a") % 2 == 0 && Trailing(rest) % 2 == 0
  {
    hide *;
    ClosedBy("build a");
    ClosedBy("b:");
    TrailingPast("b:", tail);
    FormFeedStarts(tail);
    TwoLines("build a", 0x0C as char, rest);
  }

  lemma FormFeedStarts(tail: string)
    ensures StartsWith("build a", "build ") && !StartsWith("b:" + tail, "build ")
    ensures Unbroken("build a") && Boundary(0x0C as char) && (Unbroken(tail) ==> Unbroken("b:" + tail))
  {
    BuildStarts("build a");
    ColonStartsNone("b:" + tail);
  }

  lemma BuildStarts(line: string)
    requires line == "build a"
    ensures StartsWith(line, "build ")
  {
    hide At;
    AtWhole(line, 0);
    assert line[0..] == "build " + "a";
    AtSplit(line, 0, "build ", "a");
  }

  lemma ColonStartsNone(line: string)
    requires |line| > 1 && line[1] == ':'
    ensures !StartsWith(line, "build ")
  {
    assert "build "[1..][0] == 'u';
  }

  lemma NoEdges(text: string, first: string, second: string, rules: set<string>)
    requires Lines(text) == [first, second]
    requires StartsWith(first, "build ") && !StartsWith(second, "build ") && FirstOutput(first, map[]) == None
    requires Trailing(first) % 2 == 0 && Trailing(second) % 2 == 0
    ensures DepsEdges(text, rules) == []
  {
    hide Lines, StartsWith, FirstOutput, BindingOf, Trailing;
    var raws := [first, second];
    assert raws[1..] == [second] && [second][1..] == [];
    assert "" + first == first && "" + second == second;
    assert Logical([second], "") == [second] + Logical([], "");
    assert Logical(raws, "") == [first] + Logical([second], "");
    assert Logical(raws, "") == raws;
    assert EdgesFrom(raws, map[], rules) == EdgesFrom([second], map[], rules);
    assert EdgesFrom([second], map[], rules) == EdgesFrom([], Bound(map[], second), rules);
  }

  lemma FormFeedCuts(outs: seq<Out>)
    requires outs == [Out(['a', 0x0C as char, 'b'], "")]
    ensures LegalOuts(outs) && SomeBroken(outs) && CutText(outs) == "a"
  {
    var name := outs[0].name;
    assert outs[1..] == [] && name[1] in name && !Unbroken(name);
    assert name[1..][0] == 0x0C as char && LineEnd(name) == 1 && name[..1] == "a";
    assert Escaped("a") == "a" + Escaped("a"[1..]);
  }

  lemma FormFeedText(outs: seq<Out>, tail: string, rest: string)
    requires outs == [Out(['a', 0x0C as char, 'b'], "")] && rest == "b:" + tail
    ensures EdgeText(outs, tail) == "build a" + ([0x0C as char] + rest)
  {
    var name := outs[0].name;
    FormFeedName(name);
    hide Escaped;
    assert outs[1..] == [];
    assert OutsText(outs) == name + ("" + "");
    assert name == "a" + [0x0C as char] + "b";
  }

  lemma FormFeedName(name: string)
    requires name == ['a', 0x0C as char, 'b']
    ensures Escaped(name) == name
  {
    assert name == "a" + ([0x0C as char] + "b");
    EscapedJoin("a", [0x0C as char] + "b");
    EscapedJoin([0x0C as char], "b");
    EscapedOne('a');
    EscapedOne(0x0C as char);
    EscapedOne('b');
  }

  lemma EscapedOne(c: char)
    ensures Escaped([c]) == Escape(c)
  {
    assert [c][1..] == "" && Escape(c) + "" == Escape(c);
  }

  lemma TwoLines(a: string, b: char, c: string)
    requires Unbroken(a) && Boundary(b) && Unbroken(c)
    ensures Lines(Written([a + ([b] + c)])) == [a, c]
  {
    var last := c + ("\n" + "");
    var text := a + ([b] + last);
    LastLine(c);
    CutAtBoundary(a, b, last);
    hide Lines;
    assert Written([]) == "" && Written([a + ([b] + c)]) == text;
  }

  lemma LastLine(c: string)
    requires Unbroken(c)
    ensures Lines(c + ("\n" + "")) == [c]
  {
    var text := c + ("\n" + "");
    LineEndIs(c, "");
    assert text[..|c|] == c && text[|c| + 1..] == "";
  }

  lemma CutAtBoundary(a: string, b: char, last: string)
    requires Unbroken(a) && Boundary(b)
    ensures Lines(a + ([b] + last)) == [a] + Lines(last)
  {
    var text := a + ([b] + last);
    LineEndPast(a, [b] + last);
    assert LineEnd([b] + last) == 0;
    hide LineEnd, Unbroken, Boundary;
    assert text[..|a|] == a && text[|a| + 1..] == last;
  }
}
