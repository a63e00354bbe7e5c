/** The pure helpers of the game's utility file: clamping, linear scaling,
    the compass key of a direction, the last-index table of a string and the
    normalisation of a vector. */
module Utils {
  import opened Ecs

  function Min(a: real, b: real): real { if a <= b then a else b }

  function Max(a: real, b: real): real { if a >= b then a else b }

  /** `Math.min(Math.max(num, min), max)`; the same formula as the engine's
      `clamp(min, max, value)`. */
  function Clamp(num: real, min: real, max: real): (r: real)
    ensures min <= max ==> min <= r <= max
    ensures min <= num <= max ==> r == num
    ensures min > max ==> r == max
  {
    Min(Max(num, min), max)
  }

  lemma ClampIdempotent(num: real, min: real, max: real)
    ensures Clamp(Clamp(num, min, max), min, max) == Clamp(num, min, max)
  {
  }

  /** Linear map of `number` from [inMin, inMax] to [outMin, outMax]; `None`
      stands for the non-finite value JavaScript yields when inMin == inMax. */
  function Scale(number: real, inMin: real, inMax: real, outMin: real, outMax: real): (r: Option<real>)
    ensures r.None? <==> inMin == inMax
  {
    if inMin == inMax then None
    else Some(((number - inMin) * (outMax - outMin)) / (inMax - inMin) + outMin)
  }

  lemma ScaleMapsEndpoints(inMin: real, inMax: real, outMin: real, outMax: real)
    requires inMin != inMax
    ensures Scale(inMin, inMin, inMax, outMin, outMax) == Some(outMin)
    ensures Scale(inMax, inMin, inMax, outMin, outMax) == Some(outMax)
  {
    var d, k := inMax - inMin, outMax - outMin;
    assert (d * k) / d == k;
    assert Scale(inMax, inMin, inMax, outMin, outMax).value == (d * k) / d + outMin;
  }

  /** The compass key of a direction vector. */
  function GetDirKey(x: real, y: real): (k: string)
    ensures k == "N" <==> x == 0.0 && y == -1.0
    ensures k == "E" <==> x == 1.0 && y == 0.0
    ensures k == "S" <==> x == 0.0 && y == 1.0
    ensures k == "W" <==> x == -1.0 && y == 0.0
    ensures k == "NE" <==> x > 0.0 && y < 0.0
    ensures k == "NW" <==> x < 0.0 && y < 0.0
    ensures k == "SE" <==> x > 0.0 && y > 0.0
    ensures k == "SW" <==> x < 0.0 && y > 0.0
    ensures k == "default" <==> (x == 0.0 || y == 0.0) && !IsUnitAxis(x, y)
  {
    if x == 0.0 && y == -1.0 then "N"
    else if x == 1.0 && y == 0.0 then "E"
    else if x == 0.0 && y == 1.0 then "S"
    else if x == -1.0 && y == 0.0 then "W"
    else if x > 0.0 && y < 0.0 then "NE"
    else if x < 0.0 && y < 0.0 then "NW"
    else if x > 0.0 && y > 0.0 then "SE"
    else if x < 0.0 && y > 0.0 then "SW"
    else "default"
  }

  /** One of the four unit vectors along an axis. */
  predicate IsUnitAxis(x: real, y: real)
  {
    (x == 0.0 && (y == 1.0 || y == -1.0)) || (y == 0.0 && (x == 1.0 || x == -1.0))
  }

  lemma DirKeyDefaults()
    ensures GetDirKey(0.0, 0.0) == "default"
    ensures GetDirKey(2.0, 0.0) == "default"
    ensures GetDirKey(0.0, -0.5) == "default"
  {
  }

  /** `i` is the position of the last occurrence of `c` in `s`. */
  predicate IsLastIndex(s: string, c: char, i: nat)
  {
    i < |s| && s[i] == c && forall j :: i < j < |s| ==> s[j] != c
  }

  /** Maps each character of `str` to the index of its last occurrence: the
      loop rebinds the table with the current character at every index. */
  method IndexChars(str: string) returns (charIndexes: map<char, nat>)
    ensures charIndexes.Keys == set c | c in str
    ensures forall c :: c in charIndexes ==> IsLastIndex(str, c, charIndexes[c])
  {
    charIndexes := map[];
    var i := 0;
    while i < |str|
      invariant 0 <= i <= |str|
      invariant charIndexes.Keys == set c | c in str[..i]
      invariant forall c :: c in charIndexes ==> IsLastIndex(str[..i], c, charIndexes[c])
    {
      charIndexes := charIndexes[str[i] := i];
      i := i + 1;
    }
    assert str[..i] == str;
  }

  lemma SquareSign(a: real)
    ensures a * a >= 0.0 && (a != 0.0 ==> a * a > 0.0)
  {
    if a < 0.0 {
      assert a * a == (-a) * (-a);
    }
  }

  /** The unit vector along `v`; the zero vector is returned unchanged.
      `sqrt` is the square root the engine uses. */
  function NormalizeVector(v: Vec, sqrt: real -> real): (r: Vec)
    requires forall m :: m > 0.0 ==> sqrt(m) > 0.0
    ensures v == Vec(0.0, 0.0) ==> r == v
    ensures v != Vec(0.0, 0.0) ==> var mag := sqrt(v.x * v.x + v.y * v.y);
      mag > 0.0 && r.x * mag == v.x && r.y * mag == v.y
  {
    if v.x == 0.0 && v.y == 0.0 then v
    else
      var sq := v.x * v.x + v.y * v.y;
      SquareSign(v.x);
      SquareSign(v.y);
      assert v.x != 0.0 || v.y != 0.0;
      var mag := sqrt(sq);
      Vec(v.x / mag, v.y / mag)
  }
}
