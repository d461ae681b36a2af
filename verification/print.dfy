/**
 `ToString` of print.go: one two-line block per layer. The first line is the
 layer's label followed by `[0][1]…[n-1]` and `}`; the second holds `(w)` for
 each forward link of the layer's middle node. The `%f` rendering of a weight
 is a parameter `fmtF`.
 */
module Printer {
  import opened NetTypes
  import opened Arena
  import opened Forward

  /** Go's `%d` of a non-negative int: decimal digits, no leading zero. */
  function NatToString(n: nat): (s: string)
    ensures |s| > 0
    ensures AllDigits(s)
    ensures |s| > 1 ==> s[0] != '0'
    ensures n < 10 <==> |s| == 1
  {
    if n < 10 then [DigitChar(n)] else NatToString(n / 10) + [DigitChar(n % 10)]
  }

  function DigitChar(d: nat): (c: char)
    requires d < 10
    ensures '0' <= c <= '9'
    ensures (c as int) - ('0' as int) == d
  {
    (('0' as int) + d) as char
  }

  predicate AllDigits(s: string)
  {
    forall i :: 0 <= i < |s| ==> '0' <= s[i] <= '9'
  }

  /** Reads a string of decimal digits back as a number. */
  function ParseNat(s: string): (n: nat)
    requires AllDigits(s)
  {
    if |s| == 0 then 0
    else
      assert AllDigits(s[..|s| - 1]);
      ParseNat(s[..|s| - 1]) * 10 + ((s[|s| - 1] as int) - ('0' as int))
  }

  /** `%d` is read back by `ParseNat`: distinct indices print differently. */
  lemma {:induction false} ParseNatToString(n: nat)
    ensures AllDigits(NatToString(n))
    ensures ParseNat(NatToString(n)) == n
  {
    var s := NatToString(n);
    if n >= 10 {
      ParseNatToString(n / 10);
      assert s[..|s| - 1] == NatToString(n / 10);
    }
  }

  /** The label that opens a block of a layer of the given kind at index `i`. */
  function Label(kind: LayerType, i: nat): (s: string)
    ensures '\n' !in s && '[' !in s
  {
    match kind
    case Input => "input   \t{"
    case Hidden =>
      var d := NatToString(i);
      assert '\n' !in d && '[' !in d by {
        forall t | 0 <= t < |d| ensures d[t] != '\n' && d[t] != '[' {}
      }
      "middle " + d + "\t{"
    case Output => "output  \t{"
  }

  /** Input and output labels are fixed; the middle label reads back as the layer's index. */
  lemma LabelShape(kind: LayerType, i: nat)
    ensures var s := Label(kind, i);
            && |s| >= 10 && s[|s| - 2..] == "\t{"
            && (kind == Input ==> s == "input   \t{")
            && (kind == Output ==> s == "output  \t{")
            && (kind == Hidden ==> s[..7] == "middle " && AllDigits(s[7..|s| - 2]) && ParseNat(s[7..|s| - 2]) == i)
  {
    if kind == Hidden {
      var d := NatToString(i);
      ParseNatToString(i);
      var s := "middle " + d + "\t{";
      assert s[7..|s| - 2] == d;
    }
  }

  /** `[0][1]…[n-1]`. */
  function IndexList(n: nat): (s: string)
    ensures '\n' !in s
  {
    if n == 0 then ""
    else
      var d := NatToString(n - 1);
      assert '\n' !in d by {
        forall t | 0 <= t < |d| ensures d[t] != '\n' {}
      }
      IndexList(n - 1) + ("[" + d + "]")
  }

  /** `[0][1]…[n-1]` opens one bracket per index. */
  lemma {:induction false} IndexListCount(n: nat)
    ensures Occurrences(IndexList(n), '[') == n
  {
    if n > 0 {
      var d := NatToString(n - 1);
      IndexListCount(n - 1);
      OccurrencesAppend(IndexList(n - 1), "[" + d + "]", '[');
      OccurrencesAppend("[" + d, "]", '[');
      OccurrencesAppend("[", d, '[');
      assert '[' !in d by {
        forall t | 0 <= t < |d| ensures d[t] != '[' {}
      }
      NoOccurrence(d, '[');
      assert Occurrences("[", '[') == 1 && Occurrences("]", '[') == 0;
    }
  }

  /** The position of the last `[` before position `e`, or -1 when there is none. */
  function LastOpen(s: string, e: nat): (i: int)
    requires e <= |s|
    ensures -1 <= i < e
    ensures 0 <= i ==> s[i] == '['
    ensures forall t :: i < t < e ==> s[t] != '['
    decreases e
  {
    if e == 0 then -1 else if s[e - 1] == '[' then e - 1 else LastOpen(s, e - 1)
  }

  /**
   Reads the trailing `[x][y]…` groups of a text back, as their contents in
   order; reading stops at the first character from the end that does not close
   a group.
   */
  function Fields(s: string): seq<string>
    decreases |s|
  {
    if |s| == 0 || s[|s| - 1] != ']' then []
    else
      var i := LastOpen(s, |s|);
      if i < 0 then [] else Fields(s[..i]) + [s[i + 1..|s| - 1]]
  }

  /** The numerals `%d` prints for 0..n-1. */
  function Numerals(n: nat): (ds: seq<string>)
    ensures |ds| == n
  {
    seq(n, t requires 0 <= t => NatToString(t))
  }

  /** A group `[d]` whose content holds no `[` is read back as `d`, after the groups before it. */
  lemma FieldsGroup(pre: string, d: string)
    requires '[' !in d
    ensures Fields(pre + ("[" + d + "]")) == Fields(pre) + [d]
  {
    var s := pre + ("[" + d + "]");
    assert s[|pre|] == '[';
    var i := LastOpen(s, |s|);
    assert i == |pre|;
    assert s[..i] == pre;
    assert s[i + 1..|s| - 1] == d;
  }

  lemma DigitsNoBracket(d: string)
    requires AllDigits(d)
    ensures '[' !in d
  {
  }

  lemma NumeralsSnoc(n: nat)
    requires n > 0
    ensures Numerals(n) == Numerals(n - 1) + [NatToString(n - 1)]
  {
    assert forall t :: 0 <= t < n - 1 ==> Numerals(n)[t] == Numerals(n - 1)[t];
  }

  /** One more group `[n-1]` extends the numerals read back by one. */
  lemma FieldsNumeralsStep(pre: string, s: string, n: nat)
    requires n > 0
    requires Fields(pre) == Numerals(n - 1)
    requires s == pre + ("[" + NatToString(n - 1) + "]")
    ensures Fields(s) == Numerals(n)
  {
    DigitsNoBracket(NatToString(n - 1));
    FieldsGroup(pre, NatToString(n - 1));
    NumeralsSnoc(n);
  }

  lemma IndexListSnoc(a: string, n: nat)
    requires n > 0
    ensures a + IndexList(n) == (a + IndexList(n - 1)) + ("[" + NatToString(n - 1) + "]")
  {
  }

  /** Reading the groups back after any text not ending in `]` gives the numerals 0..n-1, in order. */
  lemma {:induction false} FieldsIndexList(a: string, n: nat)
    requires |a| == 0 || a[|a| - 1] != ']'
    ensures Fields(a + IndexList(n)) == Numerals(n)
  {
    if n == 0 {
      assert a + IndexList(0) == a;
    } else {
      FieldsIndexList(a, n - 1);
      IndexListSnoc(a, n);
      FieldsNumeralsStep(a + IndexList(n - 1), a + IndexList(n), n);
    }
  }

  /** The t-th numeral reads back as t. */
  lemma NumeralsReadBack(n: nat)
    ensures forall t :: 0 <= t < n ==> AllDigits(Numerals(n)[t]) && ParseNat(Numerals(n)[t]) == t
  {
    forall t | 0 <= t < n
      ensures AllDigits(Numerals(n)[t]) && ParseNat(Numerals(n)[t]) == t
    {
      ParseNatToString(t);
    }
  }

  /** The node list reads back as the indices 0..n-1: the t-th group holds `t`. */
  lemma IndexListReadBack(n: nat)
    ensures |Fields(IndexList(n))| == n
    ensures forall t :: 0 <= t < n ==> AllDigits(Fields(IndexList(n))[t]) && ParseNat(Fields(IndexList(n))[t]) == t
  {
    FieldsIndexList("", n);
    assert "" + IndexList(n) == IndexList(n);
    NumeralsReadBack(n);
  }

  function Occurrences(s: string, c: char): nat
  {
    if |s| == 0 then 0 else Occurrences(s[..|s| - 1], c) + (if s[|s| - 1] == c then 1 else 0)
  }

  lemma {:induction false} OccurrencesAppend(a: string, b: string, c: char)
    ensures Occurrences(a + b, c) == Occurrences(a, c) + Occurrences(b, c)
    decreases |b|
  {
    if |b| > 0 {
      assert (a + b)[..|a + b| - 1] == a + b[..|b| - 1];
      OccurrencesAppend(a, b[..|b| - 1], c);
    } else {
      assert a + b == a;
    }
  }

  lemma {:induction false} NoOccurrence(s: string, c: char)
    ensures c !in s ==> Occurrences(s, c) == 0
    decreases |s|
  {
    if |s| > 0 && c !in s {
      assert s[..|s| - 1] <= s;
      NoOccurrence(s[..|s| - 1], c);
    }
  }

  /** `(w)` for each weight, in order. */
  function WeightTexts(ws: seq<real>, fmtF: real -> string): (s: string)
    ensures (forall w :: '\n' !in fmtF(w)) ==> '\n' !in s
    ensures (forall w :: '(' !in fmtF(w)) ==> Occurrences(s, '(') == |ws|
  {
    if |ws| == 0 then ""
    else
      var rest := WeightTexts(ws[..|ws| - 1], fmtF);
      var f := fmtF(ws[|ws| - 1]);
      var one := "(" + f + ")";
      OccurrencesAppend(rest, one, '(');
      OccurrencesAppend("(" + f, ")", '(');
      OccurrencesAppend("(", f, '(');
      NoOccurrence(f, '(');
      assert Occurrences("(", '(') == 1 && Occurrences(")", '(') == 0;
      assert '\n' !in f ==> '\n' !in one;
      assert (forall w :: '\n' !in fmtF(w)) ==> '\n' !in f;
      assert (forall w :: '(' !in fmtF(w)) ==> '(' !in f;
      assert (forall w :: '(' !in fmtF(w)) ==> Occurrences(rest, '(') == |ws| - 1;
      rest + one
  }

  /** What print.go needs: every layer has a middle node, and the arena does not dangle. */
  predicate Printable(net: Network)
  {
    && ArenaSafe(net)
    && forall k :: 0 <= k < |net.layers| ==> |net.layers[k].nodes| > 0
  }

  /** The middle node `Nodes[len(Nodes)/2]` of layer `k`. */
  function Middle(net: Network, k: nat): (n: Node)
    requires Printable(net) && k < |net.layers|
    ensures IndicesValid(net, n.links)
  {
    NodeAt(net, k, |net.layers[k].nodes| / 2)
  }

  /** The first line of block `k`, without its newline. */
  function HeaderLine(net: Network, k: nat): (s: string)
    requires k < |net.layers|
    ensures '\n' !in s
  {
    Label(net.layers[k].kind, k) + IndexList(|net.layers[k].nodes|) + "}"
  }

  /** The second line of block `k`, without its newline. */
  function WeightLine(net: Network, k: nat, fmtF: real -> string): (s: string)
    requires Printable(net) && k < |net.layers|
    ensures (forall w :: '\n' !in fmtF(w)) ==> '\n' !in s
  {
    WeightTexts(WeightsOf(net, Middle(net, k).links), fmtF)
  }

  /** `(*NeuralNetwork).ToString`; `None` is the nil receiver. */
  function ToString(net: Option<Network>, fmtF: real -> string): (s: string)
    requires net.Some? ==> Printable(net.value)
    ensures net.None? ==> s == ""
    ensures net.Some? ==> (s == "" <==> |net.value.layers| == 0)
  {
    if net.None? then "" else Unlines(BlockLines(net.value, fmtF))
  }

  /** The lines of a text whose lines all end with a newline. */
  function Lines(s: string): seq<string>
    decreases |s|
  {
    if |s| == 0 then []
    else if '\n' !in s then [s]
    else
      var i := FirstNewline(s);
      [s[..i]] + Lines(s[i + 1..])
  }

  function FirstNewline(s: string): (i: nat)
    requires '\n' in s
    ensures i < |s| && s[i] == '\n' && '\n' !in s[..i]
  {
    if s[0] == '\n' then 0
    else
      var i := FirstNewline(s[1..]);
      assert s[1..][..i] == s[1..i + 1];
      assert s[..i + 1] == [s[0]] + s[1..i + 1];
      i + 1
  }

  /** A line without a newline, followed by one, splits off as the first line. */
  lemma LinesCons(a: string, b: string)
    requires '\n' !in a
    ensures Lines(a + "\n" + b) == [a] + Lines(b)
  {
    var s := a + "\n" + b;
    assert s[|a|] == '\n';
    assert s[..|a|] == a;
    var i := FirstNewline(s);
    assert i == |a|;
    assert s[i + 1..] == b;
  }

  /** Lines joined, each followed by a newline. */
  function Unlines(ls: seq<string>): (s: string)
    ensures |ls| == 0 <==> s == ""
  {
    if |ls| == 0 then "" else (ls[0] + "\n") + Unlines(ls[1..])
  }

  /** Splitting undoes joining when no line holds a newline. */
  lemma {:induction false} LinesUnlines(ls: seq<string>)
    requires forall i :: 0 <= i < |ls| ==> '\n' !in ls[i]
    ensures Lines(Unlines(ls)) == ls
    decreases |ls|
  {
    if |ls| > 0 {
      LinesUnlines(ls[1..]);
      LinesCons(ls[0], Unlines(ls[1..]));
    }
  }

  /** Line `t` of the rendering: the header of layer `t / 2` when `t` is even, its weight line when odd. */
  function BlockLine(net: Network, t: nat, fmtF: real -> string): (s: string)
    requires Printable(net) && t < 2 * |net.layers|
    ensures (forall w :: '\n' !in fmtF(w)) ==> '\n' !in s
  {
    if t % 2 == 0 then HeaderLine(net, t / 2) else WeightLine(net, t / 2, fmtF)
  }

  /** The lines `ToString` emits, two per layer in layer order. */
  function BlockLines(net: Network, fmtF: real -> string): (ls: seq<string>)
    requires Printable(net)
    ensures |ls| == 2 * |net.layers|
  {
    seq(2 * |net.layers|, t requires 0 <= t < 2 * |net.layers| => BlockLine(net, t, fmtF))
  }

  lemma BlockLinesNoNewline(net: Network, fmtF: real -> string)
    requires Printable(net)
    requires forall w :: '\n' !in fmtF(w)
    ensures forall t :: 0 <= t < |BlockLines(net, fmtF)| ==> '\n' !in BlockLines(net, fmtF)[t]
  {
    forall t | 0 <= t < |BlockLines(net, fmtF)| ensures '\n' !in BlockLines(net, fmtF)[t] {
      assert BlockLines(net, fmtF)[t] == BlockLine(net, t, fmtF);
    }
  }

  /** Line `2i` of the rendering is the header of layer `i`. */
  lemma BlockLinesHeader(net: Network, fmtF: real -> string, i: nat)
    requires Printable(net) && i < |net.layers|
    ensures BlockLines(net, fmtF)[2 * i] == HeaderLine(net, i)
  {
    Halves(i);
    BlockLinesIndex(net, fmtF, 2 * i);
  }

  /** Line `2i + 1` of the rendering is the weight line of layer `i`. */
  lemma BlockLinesWeights(net: Network, fmtF: real -> string, i: nat)
    requires Printable(net) && i < |net.layers|
    ensures BlockLines(net, fmtF)[2 * i + 1] == WeightLine(net, i, fmtF)
  {
    Halves(i);
    BlockLinesIndex(net, fmtF, 2 * i + 1);
  }

  lemma BlockLinesIndex(net: Network, fmtF: real -> string, t: nat)
    requires Printable(net) && t < 2 * |net.layers|
    ensures BlockLines(net, fmtF)[t] == BlockLine(net, t, fmtF)
  {
  }

  /** Line `2i` is even and line `2i + 1` odd, both of block `i`. */
  lemma Halves(i: nat)
    ensures (2 * i) % 2 == 0 && (2 * i) / 2 == i
    ensures (2 * i + 1) % 2 == 1 && (2 * i + 1) / 2 == i
  {
  }

  /**
   `ToString` of a network is its blocks in layer order, two lines each: the
   header of layer i and the weight line of its middle node, provided `%f`
   never yields a newline.
   */
  lemma ToStringLines(net: Network, fmtF: real -> string)
    requires Printable(net)
    requires forall w :: '\n' !in fmtF(w)
    ensures Lines(ToString(Some(net), fmtF)) == BlockLines(net, fmtF)
    ensures |Lines(ToString(Some(net), fmtF))| == 2 * |net.layers|
    ensures forall i :: 0 <= i < |net.layers| ==>
              && Lines(ToString(Some(net), fmtF))[2 * i] == HeaderLine(net, i)
              && Lines(ToString(Some(net), fmtF))[2 * i + 1] == WeightLine(net, i, fmtF)
  {
    var L := BlockLines(net, fmtF);
    assert Lines(ToString(Some(net), fmtF)) == L by {
      BlockLinesNoNewline(net, fmtF);
      LinesUnlines(L);
    }
    forall i | 0 <= i < |net.layers|
      ensures L[2 * i] == HeaderLine(net, i) && L[2 * i + 1] == WeightLine(net, i, fmtF)
    {
      BlockLinesHeader(net, fmtF, i);
      BlockLinesWeights(net, fmtF, i);
    }
  }

  /**
   Each header lists one `[i]` per node of its layer: without its closing `}`
   it reads back as the groups `[0]`…`[n-1]`, and it opens exactly `n` brackets.
   */
  lemma HeaderCounts(net: Network, k: nat)
    requires k < |net.layers|
    ensures var h := HeaderLine(net, k);
            && |h| > 0 && h[|h| - 1] == '}'
            && Fields(h[..|h| - 1]) == Numerals(|net.layers[k].nodes|)
    ensures Occurrences(HeaderLine(net, k), '[') == |net.layers[k].nodes|
  {
    var n := |net.layers[k].nodes|;
    var l := Label(net.layers[k].kind, k);
    var ix := IndexList(n);
    var h := HeaderLine(net, k);
    LabelShape(net.layers[k].kind, k);
    assert l[|l| - 1] == '{';
    assert h[..|h| - 1] == l + ix;
    FieldsIndexList(l, n);
    IndexListCount(|net.layers[k].nodes|);
    NoOccurrence(l, '[');
    assert Occurrences("}", '[') == 0;
    OccurrencesAppend(l, ix, '[');
    OccurrencesAppend(l + ix, "}", '[');
  }

  /** The output layer has no forward links, so its weight line is empty; every other layer's lists one `(w)` per next-layer node. */
  lemma WeightLineShape(net: Network, k: nat, fmtF: real -> string)
    requires Printable(net) && Connected(net)
    requires k < |net.layers|
    requires forall w :: '(' !in fmtF(w)
    ensures k == |net.layers| - 1 ==> WeightLine(net, k, fmtF) == ""
    ensures k + 1 < |net.layers| ==> Occurrences(WeightLine(net, k, fmtF), '(') == |net.layers[k + 1].nodes|
  {
    var j := |net.layers[k].nodes| / 2;
    if k == |net.layers| - 1 {
      assert NoForwardLinks(net, k);
      assert NodeAt(net, k, j).links == [];
    } else {
      assert ForwardTo(net, k, j);
    }
  }
}
