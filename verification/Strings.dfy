/** Python string operations that several of the readers use, and what standing at a position means. */
module Strings {

  /** `str.isspace` of one character. */
  predicate Space(c: char) {
    || 0x09 <= c as int <= 0x0D || 0x1C <= c as int <= 0x20 || c as int == 0x85 || c as int == 0xA0
    || c as int == 0x1680 || 0x2000 <= c as int <= 0x200A || c as int == 0x2028 || c as int == 0x2029
    || c as int == 0x202F || c as int == 0x205F || c as int == 0x3000
  }

  /** `part` stands at `pos`. */
  predicate At(text: string, pos: nat, part: string)
    ensures At(text, pos, part) ==> pos + |part| <= |text|
    decreases |part|
  {
    if part == "" then pos <= |text| else pos < |text| && text[pos] == part[0] && At(text, pos + 1, part[1..])
  }

  /** `text.find(part, pos)`, with the length of the text for "nowhere". */
  function Find(text: string, pos: nat, part: string): (n: nat)
    requires pos <= |text|
    ensures pos <= n <= |text| && (n < |text| ==> At(text, n, part))
    decreases |text| - pos
  {
    if pos == |text| || At(text, pos, part) then pos else Find(text, pos + 1, part)
  }

  /** The newlines of `text[from:to]`. */
  function Count(text: string, from: nat, to: nat): nat
    decreases |text| - from
  {
    if from >= to || from >= |text| then 0 else (if text[from] == '\n' then 1 else 0) + Count(text, from + 1, to)
  }

  /** `text[from:to]`, whose end may lie past the text's. */
  function Slice(text: string, from: nat, to: nat): string {
    if from >= |text| || to <= from then "" else if to <= |text| then text[from..to] else text[from..]
  }

  /* ---------------------------------------------------------------- a part in its place */

  lemma {:induction false} AtSplit(text: string, pos: nat, a: string, b: string)
    requires At(text, pos, a + b)
    ensures At(text, pos, a) && At(text, pos + |a|, b) && pos + |a| + |b| <= |text|
    decreases |a|
  {
    if a == "" {
      assert a + b == b;
    } else {
      assert (a + b)[0] == a[0] && (a + b)[1..] == a[1..] + b;
      AtSplit(text, pos + 1, a[1..], b);
    }
  }

  lemma {:induction false} AtRest(text: string, pos: nat, part: string, k: nat)
    requires At(text, pos, part) && k <= |part|
    ensures At(text, pos + k, part[k..]) && pos + |part| <= |text|
    decreases k
  {
    if k > 0 {
      AtRest(text, pos + 1, part[1..], k - 1);
      assert part[1..][k - 1..] == part[k..];
    }
  }

  lemma AtChar(text: string, pos: nat, part: string, k: nat)
    requires At(text, pos, part) && k < |part|
    ensures pos + k < |text| && text[pos + k] == part[k]
  {
    AtRest(text, pos, part, k);
  }

  /** A part of a part stands where it should. */
  lemma {:induction false} AtTrans(text: string, pos: nat, whole: string, k: nat, part: string)
    requires At(text, pos, whole) && k + |part| <= |whole|
    ensures At(whole, k, part) <==> At(text, pos + k, part)
    decreases |part|
  {
    if part != "" {
      AtChar(text, pos, whole, k);
      AtTrans(text, pos, whole, k + 1, part[1..]);
    }
  }

  lemma {:induction false} AtWhole(text: string, pos: nat)
    requires pos <= |text|
    ensures At(text, pos, text[pos..])
    decreases |text| - pos
  {
    if pos < |text| {
      AtWhole(text, pos + 1);
      assert text[pos..][0] == text[pos] && text[pos..][1..] == text[pos + 1..];
    }
  }

  lemma {:induction false} AtSlice(text: string, pos: nat, part: string)
    requires At(text, pos, part)
    ensures pos + |part| <= |text| && text[pos..pos + |part|] == part
    decreases |part|
  {
    forall k | 0 <= k < |part| ensures text[pos + k] == part[k] { AtChar(text, pos, part, k); }
  }
}
