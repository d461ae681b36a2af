/**
 The helpers of the MNIST explorer example: argmax over the outputs, the
 one-hot target vector of a digit, and scaling image bytes into inputs.
 */
module Explorer {
  import opened NetTypes

  /** `j` is the first index holding the largest value of `o`. */
  ghost predicate FirstMax(o: seq<real>, j: int)
  {
    && 0 <= j < |o|
    && (forall i :: 0 <= i < |o| ==> o[i] <= o[j])
    && (forall i :: 0 <= i < j ==> o[i] < o[j])
  }

  /** A reference argmax: the first index of the maximum, 0 when `o` is empty. */
  function ArgMax(o: seq<real>): (j: nat)
    ensures |o| == 0 ==> j == 0
    ensures |o| > 0 ==> FirstMax(o, j)
  {
    if |o| <= 1 then 0
    else
      var j := ArgMax(o[..|o| - 1]);
      assert forall i :: 0 <= i < |o| - 1 ==> o[..|o| - 1][i] == o[i];
      if o[|o| - 1] > o[j] then |o| - 1 else j
  }

  /** At most one index is the first maximum, so the contract of `ArgMax` pins it down. */
  lemma FirstMaxUnique(o: seq<real>, j1: int, j2: int)
    requires FirstMax(o, j1) && FirstMax(o, j2)
    ensures j1 == j2
  {
    assert o[j1] <= o[j2] && o[j2] <= o[j1];
  }

  /**
   `getMaxOutputIndex`: a scan that takes the first element, then any later
   element strictly greater than the best so far.
   */
  method MaxOutputIndex(o: seq<real>) returns (j: int)
    ensures |o| == 0 ==> j == 0
    ensures |o| > 0 ==> FirstMax(o, j)
    ensures j == ArgMax(o)
  {
    var m := 0.0;
    j := 0;
    var i := 0;
    while i < |o|
      invariant 0 <= i <= |o|
      invariant i == 0 ==> j == 0
      invariant i > 0 ==> FirstMax(o[..i], j) && m == o[j]
    {
      assert forall t :: 0 <= t < i ==> o[..i + 1][t] == o[..i][t];
      if i == 0 || o[i] > m {
        m := o[i];
        j := i;
      }
      i := i + 1;
    }
    assert o[..i] == o;
    if |o| > 0 {
      FirstMaxUnique(o, j, ArgMax(o));
    }
  }

  /** The targets loop of `training`: ten entries, 1 at the label and 0 elsewhere. */
  method OneHot(digit: int) returns (t: seq<real>)
    ensures |t| == 10
    ensures forall j :: 0 <= j < 10 ==> (t[j] == 1.0 <==> j == digit)
    ensures forall j :: 0 <= j < 10 ==> (t[j] == 0.0 <==> j != digit)
    ensures IsOneHot(t, digit)
  {
    t := [];
    var j := 0;
    while j < 10
      invariant 0 <= j <= 10 && |t| == j
      invariant forall i :: 0 <= i < j ==> t[i] == (if i == digit then 1.0 else 0.0)
    {
      if j == digit {
        t := t + [1.0];
      } else {
        t := t + [0.0];
      }
      j := j + 1;
    }
  }

  /** A one-hot vector as a value, for stating properties of `OneHot`. */
  ghost predicate IsOneHot(t: seq<real>, digit: int)
  {
    |t| == 10 && forall j :: 0 <= j < 10 ==> t[j] == (if j == digit then 1.0 else 0.0)
  }

  /** A digit in 0..9 gives exactly one 1; any other digit gives all zeros. */
  lemma OneHotExactlyOne(t: seq<real>, digit: int)
    requires IsOneHot(t, digit)
    ensures 0 <= digit < 10 ==> t[digit] == 1.0 && forall j :: 0 <= j < 10 && t[j] == 1.0 ==> j == digit
    ensures !(0 <= digit < 10) ==> forall j :: 0 <= j < 10 ==> t[j] == 0.0
  {
  }

  /** Reading a one-hot target back with `getMaxOutputIndex` recovers its label. */
  lemma {:induction false} ArgMaxOneHot(t: seq<real>, digit: int)
    requires IsOneHot(t, digit)
    requires 0 <= digit < 10
    ensures ArgMax(t) == digit
  {
    assert FirstMax(t, digit);
    FirstMaxUnique(t, digit, ArgMax(t));
  }

  /** One pixel scaled into [0, 1]. */
  function Scale(b: byte): (x: real)
    ensures 0.0 <= x <= 1.0
    ensures x * 255.0 == b as real
  {
    (b as real) / 255.0
  }

  /**
   `setInputValuesFromImage`: the first `|image|` inputs become the scaled
   pixels and the rest keep their values. Go panics when the image is longer
   than the input slice.
   */
  method SetInputValuesFromImage(inputs: seq<real>, image: seq<byte>) returns (r: seq<real>)
    requires |image| <= |inputs|
    ensures |r| == |inputs|
    ensures forall j :: 0 <= j < |image| ==> 0.0 <= r[j] <= 1.0 && r[j] * 255.0 == image[j] as real
    ensures forall j :: |image| <= j < |inputs| ==> r[j] == inputs[j]
  {
    r := inputs;
    var j := 0;
    while j < |image|
      invariant 0 <= j <= |image| && |r| == |inputs|
      invariant forall i :: 0 <= i < j ==> r[i] == Scale(image[i])
      invariant forall i :: j <= i < |inputs| ==> r[i] == inputs[i]
    {
      r := r[j := Scale(image[j])];
      j := j + 1;
    }
  }
}
