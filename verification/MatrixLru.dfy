/** The matrix LRU core: n(n-1) stored bits, seen as an n by n matrix without its diagonal. */
module MatrixLru {
  import opened Encoders

  type Matrix = seq<seq<bool>>

  ghost predicate Square(n: nat, m: Matrix) {
    |m| == n && forall i :: 0 <= i < n ==> |m[i]| == n
  }

  /** Position of entry (i, j) among the stored bits: rows in order, the diagonal left out. */
  function FlatIndex(n: nat, i: nat, j: nat): nat
    requires i < n && j < n && i != j
  {
    i * (n - 1) + (if j < i then j else j - 1)
  }

  lemma AtMost(i: int, k: int, n: nat)
    requires i <= k
    ensures i * n <= k * n
  {
  }

  lemma FlatIndexInRange(n: nat, i: nat, j: nat)
    requires i < n && j < n && i != j
    ensures FlatIndex(n, i, j) < n * (n - 1)
  {
    AtMost(i, n - 1, n - 1);
    assert i * (n - 1) + (n - 1) == (i + 1) * (n - 1);
    AtMost(i + 1, n, n - 1);
  }

  /** Different entries have different positions. */
  lemma FlatIndexInjective(n: nat, i: nat, j: nat, i': nat, j': nat)
    requires i < n && j < n && i != j && i' < n && j' < n && i' != j'
    requires FlatIndex(n, i, j) == FlatIndex(n, i', j')
    ensures i == i' && j == j'
  {
    if i < i' {
      assert (i + 1) * (n - 1) == i * (n - 1) + (n - 1);
      AtMost(i + 1, i', n - 1);
    } else if i' < i {
      assert (i' + 1) * (n - 1) == i' * (n - 1) + (n - 1);
      AtMost(i' + 1, i, n - 1);
    }
  }

  // --- The three stages of the core ---------------------------------------------------------

  /** The stored bits describe the matrix. */
  ghost predicate Encodes(n: nat, bits: seq<bool>, m: Matrix) {
    && Square(n, m) && |bits| == n * (n - 1)
    && (forall i :: 0 <= i < n ==> !m[i][i])
    && forall i, j :: 0 <= i < n && 0 <= j < n && i != j ==>
      FlatIndex(n, i, j) < |bits| && m[i][j] == bits[FlatIndex(n, i, j)]
  }

  /** Stage 1: the matrix behind the stored bits, filled entry by entry with a running counter. */
  method Recover(n: nat, bits: seq<bool>) returns (m: Matrix)
    requires n > 0 && |bits| == n * (n - 1)
    ensures Encodes(n, bits, m)
  {
    m := [];
    var count := 0;
    for i := 0 to n
      invariant count == i * (n - 1)
      invariant |m| == i && forall a :: 0 <= a < i ==> |m[a]| == n && !m[a][a]
      invariant forall a, b :: 0 <= a < i && 0 <= b < n && a != b ==>
        FlatIndex(n, a, b) < |bits| && m[a][b] == bits[FlatIndex(n, a, b)]
    {
      var row := [];
      for j := 0 to n
        invariant count == i * (n - 1) + (if j <= i then j else j - 1)
        invariant |row| == j && (i < j ==> !row[i])
        invariant forall b :: 0 <= b < j && b != i ==>
          FlatIndex(n, i, b) < |bits| && row[b] == bits[FlatIndex(n, i, b)]
      {
        if i == j {
          row := row + [false];
        } else {
          FlatIndexInRange(n, i, j);
          row := row + [bits[count]];
          count := count + 1;
        }
      }
      m := m + [row];
      assert (i + 1) * (n - 1) == i * (n - 1) + (n - 1);
    }
  }

  /** Stage 2: the used way's row is set, its column cleared. */
  function Use(n: nat, m: Matrix, way: nat): Matrix
    requires Square(n, m)
  {
    seq(n, i requires 0 <= i < n =>
      seq(n, j requires 0 <= j < n =>
        if i == j then false else if i == way then true else if j == way then false else m[i][j]))
  }

  /** Stage 3: flatten, again with a running counter. */
  method Flatten(n: nat, m: Matrix) returns (bits: seq<bool>)
    requires n > 0 && Square(n, m) && forall i :: 0 <= i < n ==> !m[i][i]
    ensures Encodes(n, bits, m)
  {
    bits := [];
    for i := 0 to n
      invariant |bits| == i * (n - 1)
      invariant forall a, b :: 0 <= a < i && 0 <= b < n && a != b ==>
        FlatIndex(n, a, b) < |bits| && bits[FlatIndex(n, a, b)] == m[a][b]
    {
      for j := 0 to n
        invariant |bits| == i * (n - 1) + (if j <= i then j else j - 1)
        invariant forall a, b :: 0 <= a < n && 0 <= b < n && a != b && (a < i || (a == i && b < j)) ==>
          FlatIndex(n, a, b) < |bits| && bits[FlatIndex(n, a, b)] == m[a][b]
      {
        if i != j {
          assert FlatIndex(n, i, j) == |bits|;
          bits := bits + [m[i][j]];
        }
      }
      assert (i + 1) * (n - 1) == i * (n - 1) + (n - 1);
    }
  }

  /** Every stored bit belongs to an entry off the diagonal. */
  lemma EntryOf(n: nat, k: nat) returns (i: nat, j: nat)
    requires n > 0 && k < n * (n - 1)
    ensures i < n && j < n && i != j && FlatIndex(n, i, j) == k
  {
    i := k / (n - 1);
    var c := k % (n - 1);
    j := if c < i then c else c + 1;
    assert k == i * (n - 1) + c;
    if i >= n {
      AtMost(n, i, n - 1);
    }
  }

  /** The stored bits lose nothing: they determine the matrix and the matrix determines them. */
  lemma EncodingLossless(n: nat, bits: seq<bool>, bits': seq<bool>, m: Matrix, m': Matrix)
    requires n > 0 && Encodes(n, bits, m) && Encodes(n, bits', m')
    ensures bits == bits' <==> m == m'
  {
    if bits == bits' {
      forall i | 0 <= i < n ensures m[i] == m'[i] {
      }
    }
    if m == m' {
      forall k | 0 <= k < |bits| ensures bits[k] == bits'[k] {
        var i, j := EntryOf(n, k);
      }
    }
  }

  predicate ZeroRow(row: seq<bool>) {
    forall j :: 0 <= j < |row| ==> !row[j]
  }

  function Victim(n: nat, m: Matrix): (v: nat)
    requires n > 0 && |m| == n
    ensures v < n
  {
    PriorityEncoder(seq(n, i requires 0 <= i < n => ZeroRow(m[i])))
  }

  /** One access of the core: which way to replace, and the bits after `way` was used. */
  method Access(n: nat, bits: seq<bool>, way: nat, ghost m: Matrix) returns (victim: nat, bits': seq<bool>)
    requires n > 0 && way < n && Encodes(n, bits, m)
    ensures victim == Victim(n, m) && Encodes(n, bits', Use(n, m, way))
  {
    var matrix := Recover(n, bits);
    EncodingLossless(n, bits, bits, matrix, m);
    victim := Victim(n, matrix);
    bits' := Flatten(n, Use(n, matrix, way));
  }

  // --- Histories ---------------------------------------------------------------------------

  function Zero(n: nat): Matrix {
    seq(n, _ => seq(n, _ => false))
  }

  function After(n: nat, history: seq<nat>): (m: Matrix)
    ensures Square(n, m)
  {
    if history == [] then Zero(n)
    else Use(n, After(n, history[..|history| - 1]), history[|history| - 1])
  }

  /** When a way was last used; -1 for never. */
  function LastUse(history: seq<nat>, way: nat): (t: int)
    ensures -1 <= t < |history|
    ensures t >= 0 ==> history[t] == way
    ensures forall k :: t < k < |history| ==> history[k] != way
  {
    if history == [] then -1
    else if history[|history| - 1] == way then |history| - 1
    else LastUse(history[..|history| - 1], way)
  }

  /** Bit (i, j) says: way i was used more recently than way j. */
  lemma {:induction false} BitMeansMoreRecent(n: nat, history: seq<nat>, i: nat, j: nat)
    requires i < n && j < n
    ensures After(n, history)[i][j] <==> LastUse(history, i) > LastUse(history, j)
    decreases |history|
  {
    if history == [] {
    } else {
      BitMeansMoreRecent(n, history[..|history| - 1], i, j);
    }
  }

  ghost predicate Oldest(n: nat, history: seq<nat>, i: nat) {
    forall j :: 0 <= j < n ==> LastUse(history, i) <= LastUse(history, j)
  }

  /** Way v is least recently used: nobody's last use is older, and among the never used ones it
      has the lowest number. */
  ghost predicate LeastRecent(n: nat, history: seq<nat>, v: nat) {
    && v < n
    && Oldest(n, history, v)
    && (forall j :: 0 <= j < v ==> LastUse(history, v) < LastUse(history, j))
  }

  lemma ZeroRowMeansOldest(n: nat, history: seq<nat>, i: nat)
    requires i < n
    ensures ZeroRow(After(n, history)[i]) <==> Oldest(n, history, i)
  {
    var row := After(n, history)[i];
    forall j | 0 <= j < n ensures row[j] <==> LastUse(history, i) > LastUse(history, j) {
      BitMeansMoreRecent(n, history, i, j);
    }
    if Oldest(n, history, i) {
      assert forall j :: 0 <= j < |row| ==> !row[j];
    } else {
      var j :| 0 <= j < n && LastUse(history, i) > LastUse(history, j);
      assert j < |row| && row[j];
      assert !ZeroRow(row);
    }
  }

  lemma {:induction false} SomeOldest(n: nat, history: seq<nat>, k: nat) returns (v: nat)
    requires 0 < k <= n
    ensures v < k && forall j :: 0 <= j < k ==> LastUse(history, v) <= LastUse(history, j)
  {
    v := 0;
    if k > 1 {
      v := SomeOldest(n, history, k - 1);
      if LastUse(history, k - 1) < LastUse(history, v) {
        v := k - 1;
      }
    }
  }

  /** Main result: after any history the victim, and nothing else, is the least recently used way. */
  lemma VictimIsLeastRecent(n: nat, history: seq<nat>, v: nat)
    requires n > 0
    ensures LeastRecent(n, history, v) <==> v == Victim(n, After(n, history))
  {
    var m := After(n, history);
    var victim := Victim(n, m);
    var zero := seq(n, i requires 0 <= i < n => ZeroRow(m[i]));
    var oldest := SomeOldest(n, history, n);
    ZeroRowMeansOldest(n, history, oldest);
    assert zero[oldest];
    ZeroRowMeansOldest(n, history, victim);
    assert zero[victim];
    forall j | 0 <= j < victim ensures LastUse(history, victim) < LastUse(history, j) {
      ZeroRowMeansOldest(n, history, j);
      assert !zero[j];
    }
  }
}
