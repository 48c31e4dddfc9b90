/** `Util::split(input, delim)`: cut a string at occurrences of a delimiter.
    After each delimiter found, the search cursor advances by
    `|delim| + 1` from where the previous search STARTED, not to just past
    the delimiter; the k-th search therefore always begins at
    `k * (|delim| + 1)`, wherever the delimiters are. */
module Split {
  import opened Base

  /** `std::out_of_range`, thrown by `substr` when its start is past the end. */
  datatype Error = OutOfRange

  datatype Result<T> = Ok(value: T) | Err(error: Error)

  /** `d` occurs in `s` starting at position `x`. */
  predicate OccursAt(s: string, d: string, x: nat) {
    x + |d| <= |s| && s[x..x + |d|] == d
  }

  /** `s.find(d, from)`: the first occurrence at or after `from`. */
  function Find(s: string, d: string, from: nat): (r: Option<nat>)
    ensures r.Some? ==> from <= r.value && r.value + |d| <= |s|
    decreases |s| - from
  {
    if from + |d| > |s| then None
    else if OccursAt(s, d, from) then Some(from)
    else Find(s, d, from + 1)
  }

  /** `Find` returns the first occurrence at or after `from`, and fails only
      when there is none. */
  lemma {:induction false} FindSpec(s: string, d: string, from: nat)
    ensures var r := Find(s, d, from);
      && (r.Some? ==> from <= r.value && OccursAt(s, d, r.value))
      && (r.Some? ==> forall x :: from <= x < r.value ==> !OccursAt(s, d, x))
      && (r.None? ==> forall x :: from <= x ==> !OccursAt(s, d, x))
    decreases |s| - from
  {
    if from + |d| <= |s| && s[from..from + |d|] != d {
      FindSpec(s, d, from + 1);
    }
  }

  /** The loop of `split` from cursor `start`: push `input[start..x)` for the
      next occurrence `x`, advance the cursor by `|d| + 1`, and when no
      occurrence is left push `input[start..]`, which fails when the cursor
      has run past the end. */
  function SplitFrom(input: string, d: string, start: nat): (r: Result<seq<string>>)
    ensures r.Ok? ==> |r.value| >= 1
    decreases |input| + 1 - start
  {
    match Find(input, d, start)
    case None => if start <= |input| then Ok([input[start..]]) else Err(OutOfRange)
    case Some(x) =>
      match SplitFrom(input, d, start + |d| + 1)
      case Err(e) => Err(e)
      case Ok(rest) => Ok([input[start..x]] + rest)
  }

  /** `Util::split`. */
  function Split(input: string, d: string): (r: Result<seq<string>>)
    ensures |input| == 0 ==> r == Ok([])
    ensures |input| > 0 && Find(input, d, 0).None? ==> r == Ok([input])
    ensures |input| > 0 && r.Ok? ==> |r.value| >= 1
  {
    if |input| == 0 then Ok([]) else SplitFrom(input, d, 0)
  }

  /** Where the k-th search starts, counting from cursor `start`: each
      delimiter found moves the cursor `|d| + 1` further. */
  function Probe(start: nat, d: string, k: nat): nat {
    start + k * (|d| + 1)
  }

  /** Starting one step later is the same as counting one more step. */
  lemma ProbeNext(start: nat, d: string, k: nat)
    ensures Probe(start + |d| + 1, d, k) == Probe(start, d, k + 1)
  {
  }

  /** The search from cursor `p` finds an occurrence. */
  predicate Found(input: string, d: string, p: nat) {
    Find(input, d, p).Some?
  }

  /** `piece` is the text from cursor `p` up to the occurrence found there. */
  predicate Cut(input: string, d: string, p: nat, piece: string) {
    Find(input, d, p).Some? && piece == input[p..Find(input, d, p).value]
  }

  /** No occurrence is found from cursor `p`, which is still within the
      input, and `piece` is the rest of the input from there. */
  predicate Rest(input: string, d: string, p: nat, piece: string) {
    Find(input, d, p).None? && p <= |input| && piece == input[p..]
  }

  /** The pieces, described without the loop: piece k is cut at the search
      cursor `Probe(start, d, k)` for every piece but the last, and the last
      piece is the rest of the input from its cursor. */
  ghost predicate Shaped(input: string, d: string, start: nat, pieces: seq<string>) {
    && |pieces| >= 1
    && (forall k :: 0 <= k < |pieces| - 1 ==> Cut(input, d, Probe(start, d, k), pieces[k]))
    && Rest(input, d, Probe(start, d, |pieces| - 1), pieces[|pieces| - 1])
  }

  /** The search after the m-th delimiter fails with its cursor already past
      the end of the input. */
  ghost predicate Overruns(input: string, d: string, start: nat, m: nat) {
    && (forall k :: 0 <= k < m ==> Found(input, d, Probe(start, d, k)))
    && Find(input, d, Probe(start, d, m)).None?
    && Probe(start, d, m) > |input|
  }

  /** With no delimiter left, the description allows only the rest of the
      input as one piece, and an overrun only at the very first search. */
  lemma ShapeWhenNotFound(input: string, d: string, start: nat)
    requires Find(input, d, start).None?
    ensures forall pieces :: Shaped(input, d, start, pieces) <==> start <= |input| && pieces == [input[start..]]
    ensures forall m: nat :: Overruns(input, d, start, m) <==> m == 0 && start > |input|
  {
    assert Probe(start, d, 0) == start;
  }

  /** With a delimiter at `x`, a description from `start` is the piece
      `input[start..x)` followed by a description from the next cursor. */
  lemma ShapeWhenFound(input: string, d: string, start: nat, x: nat, pieces: seq<string>)
    requires Find(input, d, start) == Some(x)
    ensures Shaped(input, d, start, pieces) <==>
      |pieces| >= 2 && pieces[0] == input[start..x] && Shaped(input, d, start + |d| + 1, pieces[1..])
  {
    if Shaped(input, d, start, pieces) {
      ShapeTail(input, d, start, x, pieces);
    }
    if |pieces| >= 2 && pieces[0] == input[start..x] && Shaped(input, d, start + |d| + 1, pieces[1..]) {
      ShapeCons(input, d, start, x, pieces);
    }
  }

  lemma ShapeTail(input: string, d: string, start: nat, x: nat, pieces: seq<string>)
    requires Find(input, d, start) == Some(x)
    requires Shaped(input, d, start, pieces)
    ensures |pieces| >= 2 && pieces[0] == input[start..x] && Shaped(input, d, start + |d| + 1, pieces[1..])
  {
    ShapeFirst(input, d, start, x, pieces);
    ShapeRest(input, d, start, pieces);
  }

  lemma ShapeFirst(input: string, d: string, start: nat, x: nat, pieces: seq<string>)
    requires Find(input, d, start) == Some(x)
    requires Shaped(input, d, start, pieces)
    ensures |pieces| >= 2 && pieces[0] == input[start..x]
  {
    assert Probe(start, d, 0) == start;
    assert !Rest(input, d, start, pieces[0]);
    assert Cut(input, d, start, pieces[0]);
  }

  lemma ShapeRest(input: string, d: string, start: nat, pieces: seq<string>)
    requires |pieces| >= 2 && Shaped(input, d, start, pieces)
    ensures Shaped(input, d, start + |d| + 1, pieces[1..])
  {
    var next := start + |d| + 1;
    var n := |pieces|;
    var rest := pieces[1..];
    forall k | 0 <= k < |rest| - 1
      ensures Cut(input, d, Probe(next, d, k), rest[k])
    {
      ProbeNext(start, d, k);
      assert rest[k] == pieces[k + 1];
    }
    ProbeNext(start, d, n - 2);
    assert rest[|rest| - 1] == pieces[n - 1];
  }

  lemma ShapeCons(input: string, d: string, start: nat, x: nat, pieces: seq<string>)
    requires Find(input, d, start) == Some(x)
    requires |pieces| >= 2 && pieces[0] == input[start..x] && Shaped(input, d, start + |d| + 1, pieces[1..])
    ensures Shaped(input, d, start, pieces)
  {
    var next := start + |d| + 1;
    assert Probe(start, d, 0) == start;
    var rest := pieces[1..];
    forall k | 0 <= k < |pieces| - 1
      ensures Cut(input, d, Probe(start, d, k), pieces[k])
    {
      if k > 0 {
        ProbeNext(start, d, k - 1);
        assert pieces[k] == rest[k - 1];
      }
    }
    ProbeNext(start, d, |rest| - 1);
    assert pieces[|pieces| - 1] == rest[|rest| - 1];
  }

  /** With a delimiter at the first cursor, an overrun from `start` is an
      overrun one search later from the next cursor. */
  lemma OverrunsWhenFound(input: string, d: string, start: nat, x: nat, m: nat)
    requires Find(input, d, start) == Some(x)
    ensures Overruns(input, d, start, m) <==> m >= 1 && Overruns(input, d, start + |d| + 1, m - 1)
  {
    assert Probe(start, d, 0) == start;
    if m >= 1 {
      if Overruns(input, d, start, m) {
        OverrunsShift(input, d, start, m);
      }
      if Overruns(input, d, start + |d| + 1, m - 1) {
        OverrunsUnshift(input, d, start, m);
      }
    }
  }

  lemma OverrunsShift(input: string, d: string, start: nat, m: nat)
    requires m >= 1 && Overruns(input, d, start, m)
    ensures Overruns(input, d, start + |d| + 1, m - 1)
  {
    var next := start + |d| + 1;
    ProbeNext(start, d, m - 1);
    forall k | 0 <= k < m - 1 ensures Found(input, d, Probe(next, d, k)) {
      FoundShift(input, d, start, k);
    }
  }

  lemma OverrunsUnshift(input: string, d: string, start: nat, m: nat)
    requires m >= 1 && Found(input, d, start) && Overruns(input, d, start + |d| + 1, m - 1)
    ensures Overruns(input, d, start, m)
  {
    var next := start + |d| + 1;
    ProbeNext(start, d, m - 1);
    assert Probe(start, d, 0) == start;
    forall k | 1 <= k < m ensures Found(input, d, Probe(start, d, k)) {
      FoundShift(input, d, start, k - 1);
    }
  }

  /** A search cursor counted from `start` is the previous one counted from
      the next cursor. */
  lemma FoundShift(input: string, d: string, start: nat, k: nat)
    ensures Found(input, d, Probe(start, d, k + 1)) <==> Found(input, d, Probe(start + |d| + 1, d, k))
  {
    ProbeNext(start, d, k);
  }

  /** `SplitFrom` returns exactly the pieces of the closed-form
      description. */
  lemma {:induction false} SplitFromShape(input: string, d: string, start: nat, pieces: seq<string>)
    ensures SplitFrom(input, d, start) == Ok(pieces) <==> Shaped(input, d, start, pieces)
    decreases |input| + 1 - start
  {
    var next := start + |d| + 1;
    match Find(input, d, start)
    case None =>
      ShapeWhenNotFound(input, d, start);
    case Some(x) =>
      ShapeWhenFound(input, d, start, x, pieces);
      if |pieces| >= 1 {
        SplitFromShape(input, d, next, pieces[1..]);
        if |pieces| >= 2 || SplitFrom(input, d, start) == Ok(pieces) {
          assert pieces == [pieces[0]] + pieces[1..];
        }
      }
  }

  /** `SplitFrom` fails exactly when some search cursor overruns the input. */
  lemma {:induction false} SplitFromOverruns(input: string, d: string, start: nat)
    ensures SplitFrom(input, d, start).Err? <==> exists m: nat :: Overruns(input, d, start, m)
    decreases |input| + 1 - start
  {
    var next := start + |d| + 1;
    match Find(input, d, start)
    case None =>
      assert Probe(start, d, 0) == start;
      if start > |input| {
        assert Overruns(input, d, start, 0);
      } else {
        forall m: nat ensures !Overruns(input, d, start, m) {
          if m > 0 {
            assert !Find(input, d, Probe(start, d, 0)).Some?;
          }
        }
      }
    case Some(x) =>
      SplitFromOverruns(input, d, next);
      if SplitFrom(input, d, next).Err? {
        var m: nat :| Overruns(input, d, next, m);
        OverrunsWhenFound(input, d, start, x, m + 1);
      } else {
        forall m: nat ensures !Overruns(input, d, start, m) {
          OverrunsWhenFound(input, d, start, x, m);
        }
      }
  }

  /** The delimiter-separated fields joined back with the delimiter. */
  function Join(pieces: seq<string>, d: string): string {
    if |pieces| == 0 then []
    else if |pieces| == 1 then pieces[0]
    else pieces[0] + d + Join(pieces[1..], d)
  }

  /** The loop with the evidently intended cursor update, `start = x + |d|`:
      resume the search just past the delimiter found. */
  function SplitIntendedFrom(input: string, d: string, start: nat): (r: seq<string>)
    requires |d| > 0 && start <= |input|
    ensures |r| >= 1
    ensures Join(r, d) == input[start..]
    ensures forall i :: 0 <= i < |r| ==> Find(r[i], d, 0).None?
    decreases |input| - start
  {
    match Find(input, d, start)
    case None =>
      FindSpec(input, d, start);
      NoOccurrenceInSlice(input, d, start, |input|);
      assert input[start..|input|] == input[start..];
      NotFound(input[start..], d);
      [input[start..]]
    case Some(x) =>
      FindSpec(input, d, start);
      var rest := SplitIntendedFrom(input, d, x + |d|);
      NoOccurrenceInSlice(input, d, start, x);
      NotFound(input[start..x], d);
      assert input[start..] == input[start..x] + d + input[x + |d|..];
      var r := [input[start..x]] + rest;
      assert r[1..] == rest;
      assert forall i :: 1 <= i < |r| ==> r[i] == rest[i - 1];
      r
  }

  /** A slice of `s` that starts at `from` and ends before the first
      occurrence at or after `from` contains no occurrence. */
  lemma NoOccurrenceInSlice(s: string, d: string, from: nat, to: nat)
    requires from <= to <= |s|
    requires forall x: nat :: from <= x && x + |d| <= to ==> !OccursAt(s, d, x)
    ensures forall y: nat :: !OccursAt(s[from..to], d, y)
  {
    var p := s[from..to];
    forall y: nat | y + |d| <= |p| ensures !OccursAt(p, d, y) {
      var x := from + y;
      assert x + |d| <= to;
      assert !OccursAt(s, d, x);
      var here, there := p[y..y + |d|], s[x..x + |d|];
      forall j | 0 <= j < |d| ensures here[j] == there[j] {
        assert p[y + j] == s[x + j];
      }
      assert here == there;
    }
  }

  /** Without any occurrence, the search from the start fails. */
  lemma NotFound(s: string, d: string)
    requires forall y: nat :: !OccursAt(s, d, y)
    ensures Find(s, d, 0).None?
  {
    FindSpec(s, d, 0);
  }

  /** `split` as evidently intended. */
  function SplitIntended(input: string, d: string): (r: seq<string>)
    requires |d| > 0
    ensures Join(r, d) == input
    ensures forall i :: 0 <= i < |r| ==> Find(r[i], d, 0).None?
    ensures |input| > 0 ==> |r| >= 1
  {
    if |input| == 0 then [] else SplitIntendedFrom(input, d, 0)
  }

  /** As written, splitting the weight list "0.5,0.5" at "," yields three
      fields, the middle one a stray copy of the tail of the first; the
      intended split yields the two fields that join back to the input. */
  lemma WeightListCounterexample()
    ensures Split("0.5,0.5", ",") == Ok(["0.5", "5", "0.5"])
    ensures Join(["0.5", "5", "0.5"], ",") != "0.5,0.5"
    ensures SplitIntended("0.5,0.5", ",") == ["0.5", "0.5"]
  {
    var s := "0.5,0.5";
    assert Find(s, ",", 3) == Some(3) by { assert s[3..4] == ","; }
    assert Find(s, ",", 2) == Some(3) by { assert s[2..3][0] == '5'; }
    assert Find(s, ",", 1) == Some(3) by { assert s[1..2][0] == '.'; }
    assert Find(s, ",", 0) == Some(3) by { assert s[0..1][0] == '0'; }
    assert Find(s, ",", 7) == None;
    assert Find(s, ",", 6) == None by { assert s[6..7][0] == '5'; }
    assert Find(s, ",", 5) == None by { assert s[5..6][0] == '.'; }
    assert Find(s, ",", 4) == None by { assert s[4..5][0] == '0'; }
    assert s[0..3] == "0.5";
    assert s[2..3] == "5";
    assert s[4..] == "0.5";
    assert SplitFrom(s, ",", 4) == Ok(["0.5"]);
    assert SplitFrom(s, ",", 2) == Ok([s[2..3]] + ["0.5"]);
    assert [s[2..3]] + ["0.5"] == ["5", "0.5"];
    assert SplitFrom(s, ",", 0) == Ok([s[0..3]] + ["5", "0.5"]);
    assert [s[0..3]] + ["5", "0.5"] == ["0.5", "5", "0.5"];
    assert SplitIntendedFrom(s, ",", 4) == ["0.5"];
    assert Join(["0.5", "5", "0.5"], ",")[4] == '5';
  }
}
