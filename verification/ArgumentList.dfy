/** The top-level operands of an argument list in blanked code (comment_contract_lint.py:422-439). */
module ArgumentList {
  import opened Options

  predicate Opener(c: char) {
    c == '(' || c == '[' || c == '{'
  }

  predicate Closer(c: char) {
    c == ')' || c == ']' || c == '}'
  }

  /** The operands of an argument list, by where each starts and ends, and the position past its close. */
  datatype Operands = Operands(operands: seq<(nat, nat)>, after: nat)

  /** Openers less closers between two positions. */
  function Level(code: string, from: nat, until: int): int
    requires until <= |code|
  {
    if until <= from then 0
    else Level(code, from, until - 1) + if Opener(code[until - 1]) then 1 else if Closer(code[until - 1]) then -1 else 0
  }

  /** THE MATCHING CLOSE: a closer at level zero, nothing before it having gone below. */
  ghost predicate ClosesAt(code: string, pos: nat, e: int) {
    pos <= e < |code| && Closer(code[e]) && Level(code, pos, e) == 0
    && forall i :: pos <= i <= e ==> 0 <= Level(code, pos, i)
  }

  predicate TopComma(code: string, pos: nat, i: int)
    requires 0 <= i < |code|
  {
    code[i] == ',' && Level(code, pos, i) == 0
  }

  predicate EndsOne(operands: seq<(nat, nat)>, i: int) {
    exists k :: 0 <= k < |operands| && operands[k].1 == i
  }

  lemma EndsMore(operands: seq<(nat, nat)>, last: (nat, nat))
    ensures forall i :: EndsOne(operands, i) ==> EndsOne(operands + [last], i)
    ensures EndsOne(operands + [last], last.1)
  {
    var more := operands + [last];
    assert more[|operands|] == last;
    forall i | EndsOne(operands, i) ensures EndsOne(more, i) {
      var k :| 0 <= k < |operands| && operands[k].1 == i;
      assert more[k].1 == i;
    }
  }

  /** Operands one after the other from `pos`, each ended by a comma at level zero, up to `start`. */
  predicate Tiled(code: string, pos: nat, operands: seq<(nat, nat)>, start: nat) {
    (forall k :: 0 <= k < |operands| ==>
       operands[k].0 <= operands[k].1 < |code| && TopComma(code, pos, operands[k].1)
       && operands[k].0 == if k == 0 then pos else operands[k - 1].1 + 1)
    && start == if operands == [] then pos else operands[|operands| - 1].1 + 1
  }

  /** THE OPERANDS: they tile the list up to its close, and they are split at its top-level commas and nowhere else. */
  ghost predicate Divides(code: string, pos: nat, operands: seq<(nat, nat)>, close: nat) {
    && |operands| > 0 && operands[|operands| - 1].1 == close
    && Tiled(code, pos, operands[..|operands| - 1], operands[|operands| - 1].0)
    && forall i :: pos <= i < close && i < |code| && TopComma(code, pos, i) ==> EndsOne(operands, i)
  }

  /** A list has at most one matching close. */
  lemma CloseIsUnique(code: string, pos: nat, d: int, e: int)
    requires ClosesAt(code, pos, d) && ClosesAt(code, pos, e)
    ensures d == e
  {
    assert Level(code, pos, d + 1) == -1 && Level(code, pos, e + 1) == -1;
  }

  /* ---------------------------------------------------------------- the loop */

  /** What the loop of `_operands` knows at `index`. */
  ghost predicate Upto(code: string, pos: nat, index: nat, depth: int, operands: seq<(nat, nat)>, start: nat) {
    && pos <= start <= index <= |code| && 0 <= depth == Level(code, pos, index)
    && (forall i :: pos <= i <= index ==> 0 <= Level(code, pos, i))
    && Tiled(code, pos, operands, start)
    && (forall i :: pos <= i < start && TopComma(code, pos, i) ==> EndsOne(operands, i))
    && (forall i :: start <= i < index ==> !TopComma(code, pos, i))
    && (forall e :: pos <= e < index ==> !ClosesAt(code, pos, e))
  }

  lemma Passes(code: string, pos: nat, index: nat, depth: int, operands: seq<(nat, nat)>, start: nat)
    requires Upto(code, pos, index, depth, operands, start) && index < |code|
    requires !(code[index] == ',' && depth == 0) && !(Closer(code[index]) && depth == 0)
    ensures var change := if Opener(code[index]) then 1 else if Closer(code[index]) then -1 else 0;
            Upto(code, pos, index + 1, depth + change, operands, start)
  {
  }

  lemma Splits(code: string, pos: nat, index: nat, operands: seq<(nat, nat)>, start: nat)
    requires Upto(code, pos, index, 0, operands, start) && index < |code| && code[index] == ','
    ensures Upto(code, pos, index + 1, 0, operands + [(start, index)], index + 1)
  {
    EndsMore(operands, (start, index));
    TiledMore(code, pos, operands, start, index);
  }

  lemma TiledMore(code: string, pos: nat, operands: seq<(nat, nat)>, start: nat, index: nat)
    requires Tiled(code, pos, operands, start) && start <= index < |code| && TopComma(code, pos, index)
    ensures Tiled(code, pos, operands + [(start, index)], index + 1)
  {
  }

  lemma Closes(code: string, pos: nat, index: nat, operands: seq<(nat, nat)>, start: nat)
    requires Upto(code, pos, index, 0, operands, start) && index < |code| && Closer(code[index])
    ensures ClosesAt(code, pos, index) && Divides(code, pos, operands + [(start, index)], index)
  {
    var all := operands + [(start, index)];
    EndsMore(operands, (start, index));
    assert all[..|all| - 1] == operands;
  }

  lemma AtFirst(code: string, pos: nat)
    requires pos <= |code|
    ensures Upto(code, pos, pos, 0, [], pos)
  {
  }

  lemma NeverCloses(code: string, pos: nat, depth: int, operands: seq<(nat, nat)>, start: nat)
    requires Upto(code, pos, |code|, depth, operands, start)
    ensures forall e :: !ClosesAt(code, pos, e)
  {
  }

  /** `_operands`: None when the list never closes. */
  method FindOperands(code: string, pos: nat) returns (found: Option<Operands>)
    requires pos <= |code|
    ensures found.None? ==> forall e :: !ClosesAt(code, pos, e)
    ensures found.Some? ==> found.value.after > 0 && ClosesAt(code, pos, found.value.after - 1)
                            && Divides(code, pos, found.value.operands, found.value.after - 1)
  {
    hide Upto, Level, ClosesAt, Divides;
    var depth: int, start: nat := 0, pos;
    var operands: seq<(nat, nat)> := [];
    AtFirst(code, pos);
    for index := pos to |code|
      invariant Upto(code, pos, index, depth, operands, start)
    {
      var c := code[index];
      if Opener(c) {
        Passes(code, pos, index, depth, operands, start);
        depth := depth + 1;
      } else if Closer(c) {
        if depth == 0 {
          Closes(code, pos, index, operands, start);
          return Some(Operands(operands + [(start, index)], index + 1));
        }
        Passes(code, pos, index, depth, operands, start);
        depth := depth - 1;
      } else if c == ',' && depth == 0 {
        Splits(code, pos, index, operands, start);
        operands := operands + [(start, index)];
        start := index + 1;
      } else {
        Passes(code, pos, index, depth, operands, start);
      }
    }
    NeverCloses(code, pos, depth, operands, start);
    return None;
  }
}
