/** The star drawing of EXAMEN1 ejercicio 1 (dibujo): for i from max down to 1 the
    function appends a row of i asterisks followed by the HTML line break "<br>". */
module StarTriangle {

  const LineBreak: string := "<br>"

  /** `"*".repeat(i)`. */
  function Stars(i: nat): (r: string)
    ensures |r| == i
  {
    seq(i, _ => '*')
  }

  /** One row of the drawing. */
  function Row(i: nat): string {
    Stars(i) + LineBreak
  }

  /** The drawing for max, as a specification: the longest row first, then the drawing
      for max - 1; nothing when max is not positive. */
  function Triangle(max: int): string
    decreases max
  {
    if max <= 0 then "" else Row(max) + Triangle(max - 1)
  }

  /** dibujo: the loop from max down to 1, appending one row per turn. */
  method Dibujo(max: int) returns (resultado: string)
    ensures resultado == Triangle(max)
    ensures max <= 0 ==> resultado == ""
  {
    resultado := "";
    var i := max;
    while i > 0
      invariant resultado + Triangle(i) == Triangle(max)
      decreases i
    {
      AppendRow(resultado, i);
      resultado := resultado + Row(i);
      i := i - 1;
    }
    assert resultado + Triangle(i) == resultado;
  }

  /** One turn of the loop moves the longest remaining row from the drawing still to
      produce onto the text produced so far. */
  lemma AppendRow(acc: string, i: int)
    requires i > 0
    ensures acc + Triangle(i) == (acc + Row(i)) + Triangle(i - 1)
  {
    assert Triangle(i) == Row(i) + Triangle(i - 1);
  }

  // ---------------------------------------------------------------- the shape

  /** Occurrences of c in s. */
  function Count(s: string, c: char): nat {
    if s == [] then 0 else (if s[0] == c then 1 else 0) + Count(s[1..], c)
  }

  lemma {:induction false} CountAppend(a: string, b: string, c: char)
    ensures Count(a + b, c) == Count(a, c) + Count(b, c)
    decreases |a|
  {
    if a == [] {
      assert a + b == b;
    } else {
      assert (a + b)[0] == a[0] && (a + b)[1..] == a[1..] + b;
      CountAppend(a[1..], b, c);
    }
  }

  lemma {:induction false} CountStars(i: nat, c: char)
    ensures Count(Stars(i), c) == if c == '*' then i else 0
    decreases i
  {
    if i > 0 {
      assert Stars(i)[1..] == Stars(i - 1);
      CountStars(i - 1, c);
    }
  }

  /** Each row holds its i asterisks and one line break. */
  lemma RowCounts(i: nat)
    ensures Count(Row(i), '*') == i && Count(Row(i), '<') == 1
  {
    CountAppend(Stars(i), LineBreak, '*');
    CountAppend(Stars(i), LineBreak, '<');
    CountStars(i, '*');
    CountStars(i, '<');
  }

  /** The drawing for n rows is n(n+1)/2 asterisks plus four characters per line break. */
  lemma {:induction false} TriangleLength(n: nat)
    ensures |Triangle(n)| == n * (n + 1) / 2 + 4 * n
  {
    if n > 0 {
      TriangleLength(n - 1);
      HalfProductStep(n);
    }
  }

  /** n(n+1)/2 is n more than (n-1)n/2. */
  lemma HalfProductStep(n: int)
    ensures n * (n + 1) / 2 == n + (n - 1) * n / 2
  {
    assert n * (n + 1) == 2 * n + (n - 1) * n;
  }

  /** It holds n(n+1)/2 asterisks and n line breaks. */
  lemma {:induction false} TriangleCounts(n: nat)
    ensures Count(Triangle(n), '*') == n * (n + 1) / 2
    ensures Count(Triangle(n), '<') == n
  {
    if n > 0 {
      TriangleCounts(n - 1);
      HalfProductStep(n);
      RowCounts(n);
      CountAppend(Row(n), Triangle(n - 1), '*');
      CountAppend(Row(n), Triangle(n - 1), '<');
    }
  }

  /** Where the k-th row (counting from 0) starts in the drawing for n rows. */
  function RowStart(n: int, k: int): int {
    k * (n + 4) - k * (k - 1) / 2
  }

  /** Skipping the first row of n asterisks moves every later row back by n + 4. */
  lemma RowStartStep(n: int, k: int)
    requires k > 0
    ensures RowStart(n, k) == (n + 4) + RowStart(n - 1, k - 1)
  {
    assert k * (k - 1) == (k - 1) * (k - 2) + 2 * (k - 1);
    assert k * (k - 1) / 2 == (k - 1) * (k - 2) / 2 + (k - 1);
    assert k * (n + 4) == (k - 1) * (n + 3) + (n + 4) + (k - 1);
  }

  /** A slice lying inside the second part of a concatenation. */
  lemma SliceOfSecond(a: string, b: string, i: int, j: int)
    requires |a| <= i <= j <= |a| + |b|
    ensures (a + b)[i..j] == b[i - |a|..j - |a|]
  {
  }

  /** The k-th row of the drawing for n rows is n - k asterisks and a line break: rows
      shrink by one asterisk each, down to a single one. */
  lemma {:induction false} RowAt(n: nat, k: nat)
    requires k < n
    ensures 0 <= RowStart(n, k) && RowStart(n, k) + |Row(n - k)| <= |Triangle(n)|
    ensures Triangle(n)[RowStart(n, k)..RowStart(n, k) + |Row(n - k)|] == Row(n - k)
    decreases k
  {
    var first := Row(n);
    var rest := Triangle(n - 1);
    assert Triangle(n) == first + rest;
    if k == 0 {
      assert (first + rest)[..|first|] == first;
    } else {
      RowAt(n - 1, k - 1);
      RowStartStep(n, k);
      var s := RowStart(n - 1, k - 1);
      assert 0 <= s && s + |Row(n - k)| <= |rest|;
      SliceOfSecond(first, rest, |first| + s, |first| + s + |Row(n - k)|);
    }
  }

  /** dibujo(5), the call the page makes. */
  lemma FiveRows()
    ensures Triangle(5) == "*****<br>****<br>***<br>**<br>*<br>"
  {
    assert Stars(5) == "*****" && Stars(4) == "****" && Stars(3) == "***";
    assert Stars(2) == "**" && Stars(1) == "*";
  }
}
