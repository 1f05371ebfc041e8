/** apps/paint.c: the canvas and its flood fill. */
module PaintFill {
  import opened Arithmetic
  import opened Bytes

  const WIDTH := 78
  const HEIGHT := 36
  const PIXELS := WIDTH * HEIGHT

  function X(p: int): int {
    p % WIDTH
  }

  function Y(p: int): int {
    p / WIDTH
  }

  predicate OnCanvas(p: int) {
    0 <= p < PIXELS
  }

  function Distance(a: int, b: int): nat {
    if a < b then b - a else a - b
  }

  /** Sharing an edge. */
  predicate Adjacent(p: int, n: int) {
    OnCanvas(p) && OnCanvas(n) && Distance(X(p), X(n)) + Distance(Y(p), Y(n)) == 1
  }

  /** The i-th candidate neighbour that fill() looks at. */
  function Candidate(p: int, i: int): int {
    if i == 0 then p - 1 else if i == 1 then p + 1 else if i == 2 then p - WIDTH else p + WIDTH
  }

  predicate Skipped(p: int, i: int) {
    var n := Candidate(p, i);
    n < 0 || n >= PIXELS || (i == 0 && p % WIDTH == 0) || (i == 1 && p % WIDTH == WIDTH - 1)
  }

  /** The candidates that are not skipped are the pixels that share an edge. */
  lemma Neighbours(p: int, n: int)
    requires OnCanvas(p)
    ensures Adjacent(p, n) <==> exists i :: 0 <= i < 4 && !Skipped(p, i) && Candidate(p, i) == n
  {
    var x, y := X(p), Y(p);
    assert p == WIDTH * y + x && 0 <= x < WIDTH && 0 <= y < HEIGHT;
    if Adjacent(p, n) {
      var u, v := X(n), Y(n);
      assert n == WIDTH * v + u && 0 <= u < WIDTH && 0 <= v < HEIGHT;
      var i := if v == y then (if u < x then 0 else 1) else if v < y then 2 else 3;
      assert Candidate(p, i) == n && !Skipped(p, i);
    }
    forall i | 0 <= i < 4 && !Skipped(p, i) && Candidate(p, i) == n ensures Adjacent(p, n) {
      if i == 0 {
        DivModUnique(n, WIDTH, y, x - 1);
      } else if i == 1 {
        DivModUnique(n, WIDTH, y, x + 1);
      } else if i == 2 {
        DivModUnique(n, WIDTH, y - 1, x);
      } else {
        DivModUnique(n, WIDTH, y + 1, x);
      }
    }
  }

  /** A path of edge-sharing pixels of one colour. */
  ghost predicate Path(px: seq<Byte>, old_: Byte, path: seq<int>) {
    && |px| == PIXELS && path != []
    && (forall i :: 0 <= i < |path| ==> OnCanvas(path[i]) && px[path[i]] == old_)
    && (forall i :: 0 < i < |path| ==> Adjacent(path[i - 1], path[i]))
  }

  /** `q` lies in the 4-connected component of `seed` in its colour. */
  ghost predicate Reaches(px: seq<Byte>, seed: int, q: int)
    requires |px| == PIXELS && OnCanvas(seed)
  {
    exists path :: Path(px, px[seed], path) && path[0] == seed && path[|path| - 1] == q
  }

  lemma ReachesSelf(px: seq<Byte>, seed: int)
    requires |px| == PIXELS && OnCanvas(seed)
    ensures Reaches(px, seed, seed)
  {
    assert Path(px, px[seed], [seed]);
  }

  lemma ReachesNext(px: seq<Byte>, seed: int, p: int, n: int)
    requires |px| == PIXELS && OnCanvas(seed) && Reaches(px, seed, p) && Adjacent(p, n) && px[n] == px[seed]
    ensures Reaches(px, seed, n)
  {
    var path :| Path(px, px[seed], path) && path[0] == seed && path[|path| - 1] == p;
    assert Path(px, px[seed], path + [n]);
  }

  /** A set that holds the seed and is closed under same-coloured neighbours holds the component. */
  lemma {:induction false} ClosedHolds(px: seq<Byte>, old_: Byte, s: set<int>, path: seq<int>)
    requires Path(px, old_, path) && path[0] in s
    requires forall p, n :: p in s && Adjacent(p, n) && px[n] == old_ ==> n in s
    ensures path[|path| - 1] in s
  {
    if |path| > 1 {
      var shorter := path[..|path| - 1];
      assert Path(px, old_, shorter);
      ClosedHolds(px, old_, s, shorter);
      assert Adjacent(path[|path| - 2], path[|path| - 1]);
    }
  }

  ghost function Elements(s: seq<int>): set<int> {
    set x | x in s
  }

  /** What the queue knows: `px` is the canvas before the fill. */
  ghost predicate Queued(px: seq<Byte>, seed: int, q: seq<int>, head: nat) {
    && |px| == PIXELS && OnCanvas(seed) && head <= |q| && seed in q
    && (forall i :: 0 <= i < |q| ==> OnCanvas(q[i]) && px[q[i]] == px[seed] && Reaches(px, seed, q[i]))
    && (forall i, j :: 0 <= i < j < |q| ==> q[i] != q[j])
    && (forall i, n :: 0 <= i < head && Adjacent(q[i], n) && px[n] == px[seed] ==> n in q)
  }

  /** The canvas when the pixels in `q` are filled. */
  ghost predicate Filled(px: seq<Byte>, now: seq<Byte>, q: seq<int>, ink: Byte) {
    && |px| == |now| == PIXELS
    && forall p :: 0 <= p < PIXELS ==> now[p] == if p in q then ink else px[p]
  }

  /** No pixel is queued twice, so the queue has room for every pixel. */
  lemma QueueFits(q: seq<int>)
    requires forall i :: 0 <= i < |q| ==> OnCanvas(q[i])
    requires forall i, j :: 0 <= i < j < |q| ==> q[i] != q[j]
    ensures |q| <= PIXELS
  {
    DistinctBelow(q, PIXELS);
  }

  lemma QueueStart(px: seq<Byte>, seed: int, ink: Byte)
    requires |px| == PIXELS && OnCanvas(seed)
    ensures Queued(px, seed, [seed], 0) && Filled(px, px[seed := ink], [seed], ink)
  {
    ReachesSelf(px, seed);
  }

  /** A neighbour that still has the old colour is new to the queue. */
  lemma QueueMore(px: seq<Byte>, now: seq<Byte>, seed: int, q: seq<int>, head: nat, ink: Byte, p: int, n: int)
    requires Queued(px, seed, q, head) && Filled(px, now, q, ink) && ink != px[seed]
    requires p in q && Adjacent(p, n) && now[n] == px[seed]
    ensures Queued(px, seed, q + [n], head) && Filled(px, now[n := ink], q + [n], ink) && |q| < PIXELS
  {
    hide Reaches, Adjacent;
    assert n !in q && OnCanvas(n) by { AdjacentOn(p, n); }
    ReachesNext(px, seed, p, n);
    QueueFits(q + [n]);
  }

  lemma AdjacentOn(p: int, n: int)
    requires Adjacent(p, n)
    ensures OnCanvas(p) && OnCanvas(n)
  {
  }

  /** All neighbours of the pixel at the head were looked at. */
  lemma QueueAdvance(px: seq<Byte>, now: seq<Byte>, seed: int, q: seq<int>, head: nat, ink: Byte)
    requires Queued(px, seed, q, head) && Filled(px, now, q, ink) && ink != px[seed] && head < |q|
    requires forall i :: 0 <= i < 4 && !Skipped(q[head], i) ==> now[Candidate(q[head], i)] != px[seed]
    ensures Queued(px, seed, q, head + 1)
  {
    hide Reaches, Skipped, Candidate, Distance, X, Y;
    forall n | Adjacent(q[head], n) && px[n] == px[seed] ensures n in q {
      Neighbours(q[head], n);
      var i :| 0 <= i < 4 && !Skipped(q[head], i) && Candidate(q[head], i) == n;
    }
  }

  /** An exhausted queue holds exactly the component. */
  lemma QueueDone(px: seq<Byte>, now: seq<Byte>, seed: int, q: seq<int>, ink: Byte)
    requires Queued(px, seed, q, |q|) && Filled(px, now, q, ink)
    ensures forall p :: 0 <= p < PIXELS ==> now[p] == if Reaches(px, seed, p) then ink else px[p]
  {
    hide Adjacent;
    forall p | 0 <= p < PIXELS ensures p in q <==> Reaches(px, seed, p) {
      if Reaches(px, seed, p) {
        var path :| Path(px, px[seed], path) && path[0] == seed && path[|path| - 1] == p;
        ClosedHolds(px, px[seed], Elements(q), path);
      }
    }
  }

  /** fill(): recolours exactly the seed's 4-connected component of its old colour. */
  method Fill(pixels: array<Byte>, queue: array<int>, x: nat, y: nat, ink: Byte)
    requires pixels.Length == PIXELS && queue.Length == PIXELS && x < WIDTH && y < HEIGHT
    modifies pixels, queue
    ensures OnCanvas(y * WIDTH + x)
    ensures forall p :: 0 <= p < PIXELS ==> pixels[p] == if Reaches(old(pixels[..]), y * WIDTH + x, p) then ink else old(pixels[p])
  {
    hide Reaches, Adjacent, Queued, Filled, Skipped, Candidate;
    ghost var px := pixels[..];
    var seed := y * WIDTH + x;
    var was := pixels[seed];
    if was == ink {
      SameColour(px, seed);
      return;
    }
    var head, tail := 0, 0;
    queue[tail], pixels[seed] := seed, ink;
    tail := tail + 1;
    QueueStart(px, seed, ink);
    assert queue[..tail] == [seed];
    while head < tail
      invariant 0 <= head <= tail <= PIXELS && Queued(px, seed, queue[..tail], head) && Filled(px, pixels[..], queue[..tail], ink)
      decreases PIXELS - head
    {
      var p := queue[head];
      QueueHead(px, seed, queue[..tail], head);
      var i := 0;
      while i < 4
        invariant 0 <= i <= 4 && head < tail <= PIXELS && queue[head] == p
        invariant Queued(px, seed, queue[..tail], head) && Filled(px, pixels[..], queue[..tail], ink)
        invariant forall j :: 0 <= j < i && !Skipped(p, j) ==> OnCanvas(Candidate(p, j)) && pixels[Candidate(p, j)] != was
      {
        var n := Candidate(p, i);
        if !Skipped(p, i) {
          CandidateAdjacent(p, i);
          if pixels[n] == was {
            QueueMore(px, pixels[..], seed, queue[..tail], head, ink, p, n);
            ghost var q := queue[..tail];
            pixels[n], queue[tail] := ink, n;
            tail := tail + 1;
            assert queue[..tail] == q + [n];
          }
        }
        i := i + 1;
      }
      QueueAdvance(px, pixels[..], seed, queue[..tail], head, ink);
      head := head + 1;
    }
    QueueDone(px, pixels[..], seed, queue[..tail], ink);
  }

  lemma QueueHead(px: seq<Byte>, seed: int, q: seq<int>, head: nat)
    requires Queued(px, seed, q, head) && head < |q|
    ensures OnCanvas(q[head]) && q[head] in q
  {
  }

  lemma CandidateAdjacent(p: int, i: int)
    requires OnCanvas(p) && 0 <= i < 4 && !Skipped(p, i)
    ensures Adjacent(p, Candidate(p, i)) && OnCanvas(Candidate(p, i))
  {
    Neighbours(p, Candidate(p, i));
  }

  /** Filling with the colour already there changes nothing. */
  lemma SameColour(px: seq<Byte>, seed: int)
    requires |px| == PIXELS && OnCanvas(seed)
    ensures forall p :: 0 <= p < PIXELS && Reaches(px, seed, p) ==> px[p] == px[seed]
  {
  }
}
