/** The 4 by 4 word matrix, row by row, on which the rounds of ChaCha20 and of BLAKE2s work. */
module Matrix {
  import opened Machine

  type Words16 = s: seq<u32> | |s| == 16 witness [0, 0, 0, 0, 0, 0, 0, 0, 0, 0, 0, 0, 0, 0, 0, 0]

  datatype Four = Four(a: u32, b: u32, c: u32, d: u32)

  function Column(x: Words16, i: nat): Four
    requires i < 4
  {
    Four(x[i], x[4 + i], x[8 + i], x[12 + i])
  }

  // The diagonal that starts in column i and wraps at the right edge
  function Diagonal(x: Words16, i: nat): Four
    requires i < 4
  {
    Four(x[i], x[4 + (i + 1) % 4], x[8 + (i + 2) % 4], x[12 + (i + 3) % 4])
  }

  function FromColumns(c0: Four, c1: Four, c2: Four, c3: Four): (x: Words16)
    ensures Column(x, 0) == c0 && Column(x, 1) == c1 && Column(x, 2) == c2 && Column(x, 3) == c3
  {
    [c0.a, c1.a, c2.a, c3.a,
     c0.b, c1.b, c2.b, c3.b,
     c0.c, c1.c, c2.c, c3.c,
     c0.d, c1.d, c2.d, c3.d]
  }

  function FromDiagonals(d0: Four, d1: Four, d2: Four, d3: Four): (x: Words16)
    ensures Diagonal(x, 0) == d0 && Diagonal(x, 1) == d1 && Diagonal(x, 2) == d2 && Diagonal(x, 3) == d3
  {
    [d0.a, d1.a, d2.a, d3.a,
     d3.b, d0.b, d1.b, d2.b,
     d2.c, d3.c, d0.c, d1.c,
     d1.d, d2.d, d3.d, d0.d]
  }

  // Four words of x replaced
  function Put(x: Words16, a: nat, b: nat, c: nat, d: nat, q: Four): Words16
    requires a < 16 && b < 16 && c < 16 && d < 16
  {
    x[a := q.a][b := q.b][c := q.c][d := q.d]
  }
}
