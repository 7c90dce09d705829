/** The bus position simulator of the live map, as pure functions over the
    route catalogue: seeding two synthetic buses per route, re-seeding the
    whole fleet from the active lines, and the tick that moves every bus one
    point along its route, wrapping round at the end.

    The catalogue maps a line id to its route, an ordered sequence of points.
    Points are only ever copied, so their type `P` is left opaque. */
module Simulation {
  import opened Sequences


  /** A simulated bus: its id, its line, its number on that line and the
      index of the route point it stands on. */
  datatype BusPosition = BusPosition(id: string, line: string, number: string, routeIndex: nat)

  /** A line can host buses when its route exists and has at least two points. */
  predicate CanHost<P>(routes: map<string, seq<P>>, line: string)
  {
    line in routes && |routes[line]| >= 2
  }

  /** The bus stands on a point of its route, which exists. */
  predicate InBounds<P>(routes: map<string, seq<P>>, b: BusPosition)
  {
    b.line in routes && b.routeIndex < |routes[b.line]|
  }

  predicate AllInBounds<P>(routes: map<string, seq<P>>, ps: seq<BusPosition>)
  {
    forall k :: 0 <= k < |ps| ==> InBounds(routes, ps[k])
  }

  /** getBusPositionsForRoute: no bus on a missing or one-point route;
      otherwise bus 1 a quarter of the way along and bus 2 three quarters of
      the way along (both indices rounded down). */
  function SeedLine<P>(routes: map<string, seq<P>>, line: string): (r: seq<BusPosition>)
    ensures !CanHost(routes, line) ==> r == []
    ensures CanHost(routes, line) ==> |r| == 2
    ensures CanHost(routes, line) ==>
      var n := |routes[line]|;
      // floor(n/4) and floor(3n/4), and in range: 0 <= first <= second < n
      4 * r[0].routeIndex <= n < 4 * (r[0].routeIndex + 1) &&
      4 * r[1].routeIndex <= 3 * n < 4 * (r[1].routeIndex + 1) &&
      r[0].routeIndex <= r[1].routeIndex < n
    ensures CanHost(routes, line) ==>
      r[0].id == line + "-bus1" && r[0].number == "1" &&
      r[1].id == line + "-bus2" && r[1].number == "2" &&
      r[0].id != r[1].id
    ensures forall b <- r :: b.line == line && InBounds(routes, b)
  {
    if !CanHost(routes, line) then []
    else
      var n := |routes[line]|;
      var first := BusPosition(line + "-bus1", line, "1", n / 4);
      var second := BusPosition(line + "-bus2", line, "2", n * 3 / 4);
      assert first.id[|line| + 4] != second.id[|line| + 4];
      [first, second]
  }

  /** Number of lines (counted with repetition) whose route can host buses. */
  function HostCount<P>(routes: map<string, seq<P>>, lines: seq<string>): nat
  {
    if lines == [] then 0
    else (if CanHost(routes, lines[0]) then 1 else 0) + HostCount(routes, lines[1..])
  }

  /** The re-seed effect, `activeLines.flatMap(getBusPositionsForRoute)`:
      the seeds of the active lines, concatenated in order. It depends on
      the catalogue and the active lines only, so no earlier progress of any
      bus survives a re-seed. */
  function SeedAll<P>(routes: map<string, seq<P>>, lines: seq<string>): (r: seq<BusPosition>)
    ensures |r| == 2 * HostCount(routes, lines)
    ensures forall b <- r :: b.line in lines && CanHost(routes, b.line)
    ensures AllInBounds(routes, r)
  {
    if lines == [] then []
    else SeedLine(routes, lines[0]) + SeedAll(routes, lines[1..])
  }

  /** One bus's move on a tick (the callback passed to `map`): a bus whose
      route is missing stays as it is; otherwise it goes to the next point,
      or back to point 0 once the next index reaches the route's length. */
  function Step<P>(routes: map<string, seq<P>>, b: BusPosition): (r: BusPosition)
    ensures r.id == b.id && r.line == b.line && r.number == b.number
    ensures b.line !in routes ==> r == b
    ensures InBounds(routes, b) ==>
      InBounds(routes, r) && r.routeIndex == (b.routeIndex + 1) % |routes[b.line]|
  {
    if b.line !in routes then b
    else
      var next := b.routeIndex + 1;
      b.(routeIndex := if next >= |routes[b.line]| then 0 else next)
  }

  /** One tick over the whole fleet: every bus stepped, in place. */
  function TickAll<P>(routes: map<string, seq<P>>, ps: seq<BusPosition>): (r: seq<BusPosition>)
    ensures |r| == |ps|
    ensures forall k :: 0 <= k < |ps| ==>
      r[k].id == ps[k].id && r[k].line == ps[k].line && r[k].number == ps[k].number
    ensures forall k :: 0 <= k < |ps| && ps[k].line !in routes ==> r[k] == ps[k]
    ensures AllInBounds(routes, ps) ==> AllInBounds(routes, r)
  {
    seq(|ps|, k requires 0 <= k < |ps| => Step(routes, ps[k]))
  }

  /** `n` consecutive ticks. */
  function Ticks<P>(routes: map<string, seq<P>>, ps: seq<BusPosition>, n: nat): seq<BusPosition>
  {
    if n == 0 then ps else TickAll(routes, Ticks(routes, ps, n - 1))
  }

  lemma MulMono(d: int, m: int)
    requires d >= 1 && m > 0
    ensures d * m >= m
  {
  }

  /** Division by a positive number has one remainder: the one in [0, m). */
  lemma ModUnique(x: int, m: int, q: int, r: int)
    requires m > 0 && 0 <= r < m && x == q * m + r
    ensures x % m == r
  {
    var d := x / m - q;
    assert x == (x / m) * m + x % m;
    assert d * m == (x / m) * m - q * m;
    assert d * m == r - x % m;
    if d >= 1 {
      MulMono(d, m);
    } else if d <= -1 {
      MulMono(-d, m);
    }
  }

  lemma ModSucc(a: nat, m: nat)
    requires m > 0
    ensures (a % m + 1) % m == (a + 1) % m
  {
    var q := a / m;
    if a % m + 1 < m {
      ModUnique(a + 1, m, q, a % m + 1);
      ModUnique(a % m + 1, m, 0, a % m + 1);
    } else {
      assert a + 1 == q * m + m == (q + 1) * m + 0;
      ModUnique(a + 1, m, q + 1, 0);
      ModUnique(m, m, 1, 0);
    }
  }

  /** After `n` ticks every bus that stood on its route stands `n` points
      further on, modulo the route's length, and keeps its id, line and
      number; the fleet keeps its size and order. */
  lemma {:induction false} TicksAdvance<P>(routes: map<string, seq<P>>, ps: seq<BusPosition>, n: nat)
    requires AllInBounds(routes, ps)
    ensures |Ticks(routes, ps, n)| == |ps|
    ensures AllInBounds(routes, Ticks(routes, ps, n))
    ensures forall k :: 0 <= k < |ps| ==>
      var b := Ticks(routes, ps, n)[k];
      b.id == ps[k].id && b.line == ps[k].line && b.number == ps[k].number &&
      b.routeIndex == (ps[k].routeIndex + n) % |routes[ps[k].line]|
  {
    if n > 0 {
      TicksAdvance(routes, ps, n - 1);
      var prev := Ticks(routes, ps, n - 1);
      forall k | 0 <= k < |ps|
        ensures Ticks(routes, ps, n)[k].routeIndex == (ps[k].routeIndex + n) % |routes[ps[k].line]|
      {
        var m := |routes[ps[k].line]|;
        assert Ticks(routes, ps, n)[k] == Step(routes, prev[k]);
        assert prev[k].routeIndex == (ps[k].routeIndex + (n - 1)) % m;
        ModSucc(ps[k].routeIndex + (n - 1), m);
      }
    } else {
      forall k | 0 <= k < |ps| ensures ps[k].routeIndex % |routes[ps[k].line]| == ps[k].routeIndex {
        assert InBounds(routes, ps[k]);
      }
    }
  }

  /** Re-seeding distributes over concatenation of the active lines. */
  lemma {:induction false} SeedAllAppend<P>(routes: map<string, seq<P>>, a: seq<string>, b: seq<string>)
    ensures SeedAll(routes, a + b) == SeedAll(routes, a) + SeedAll(routes, b)
  {
    if a != [] {
      assert (a + b)[1..] == a[1..] + b;
      SeedAllAppend(routes, a[1..], b);
    } else {
      assert a + b == b;
    }
  }

  /** The buses of one line, in order. */
  function OnLine(ps: seq<BusPosition>, line: string): (r: seq<BusPosition>)
    ensures forall b <- r :: b in ps && b.line == line
  {
    if ps == [] then []
    else (if ps[0].line == line then [ps[0]] else []) + OnLine(ps[1..], line)
  }

  lemma {:induction false} OnLineAppend(a: seq<BusPosition>, b: seq<BusPosition>, line: string)
    ensures OnLine(a + b, line) == OnLine(a, line) + OnLine(b, line)
  {
    if a != [] {
      assert (a + b)[1..] == a[1..] + b;
      OnLineAppend(a[1..], b, line);
    } else {
      assert a + b == b;
    }
  }

  lemma {:induction false} OnLineNone(ps: seq<BusPosition>, line: string)
    requires forall b <- ps :: b.line != line
    ensures OnLine(ps, line) == []
  {
    if ps != [] {
      OnLineNone(ps[1..], line);
    }
  }

  /** Teardown and re-activation: after a re-seed from duplicate-free active
      lines, a line's buses are exactly its fresh seed if it is active and
      none at all if it is not, whatever happened to the fleet before. */
  lemma {:induction false} SeededLine<P>(routes: map<string, seq<P>>, lines: seq<string>, line: string)
    requires NoDup(lines)
    ensures OnLine(SeedAll(routes, lines), line) == if line in lines then SeedLine(routes, line) else []
  {
    if lines == [] {
    } else {
      var head := SeedLine(routes, lines[0]);
      var rest := SeedAll(routes, lines[1..]);
      assert NoDup(lines[1..]);
      SeededLine(routes, lines[1..], line);
      OnLineAppend(head, rest, line);
      if line == lines[0] {
        assert line !in lines[1..];
        assert OnLine(head, line) == head by {
          if |head| == 2 {
            assert head[1..][1..] == [];
          }
        }
        assert line in lines;
      } else {
        OnLineNone(head, line);
        assert line in lines <==> line in lines[1..];
      }
    }
  }

  /** Every seeded id is "<line>-bus<number>" with number "1" or "2". */
  lemma {:induction false} SeededIdShape<P>(routes: map<string, seq<P>>, lines: seq<string>)
    ensures forall b <- SeedAll(routes, lines) ::
      (b.number == "1" || b.number == "2") && b.id == b.line + "-bus" + b.number
  {
    if lines != [] {
      SeededIdShape(routes, lines[1..]);
    }
  }

  lemma IdDeterminesBus(a: BusPosition, b: BusPosition)
    requires a.number == "1" || a.number == "2"
    requires b.number == "1" || b.number == "2"
    requires a.id == a.line + "-bus" + a.number
    requires b.id == b.line + "-bus" + b.number
    requires a.id == b.id
    ensures a.line == b.line && a.number == b.number
  {
    assert |a.line| == |b.line|;
    assert a.line == a.id[..|a.line|];
    assert b.line == b.id[..|b.line|];
    assert a.number == [a.id[|a.id| - 1]];
    assert b.number == [b.id[|b.id| - 1]];
  }

  /** No two buses share an id. */
  predicate UniqueIds(ps: seq<BusPosition>)
  {
    forall i, j :: 0 <= i < j < |ps| ==> ps[i].id != ps[j].id
  }

  /** Two fleets with unique ids and no id in common form one with unique ids. */
  lemma UniqueIdsAppend(a: seq<BusPosition>, b: seq<BusPosition>)
    requires UniqueIds(a) && UniqueIds(b)
    requires forall x <- a, y <- b :: x.id != y.id
    ensures UniqueIds(a + b)
  {
    var r := a + b;
    forall i, j | 0 <= i < j < |r| ensures r[i].id != r[j].id {
      if j < |a| {
        assert r[i] == a[i] && r[j] == a[j];
      } else if i >= |a| {
        assert r[i] == b[i - |a|] && r[j] == b[j - |a|];
      } else {
        assert r[i] in a && r[j] in b;
      }
    }
  }

  /** The buses of the first active line share no id with those of the rest. */
  lemma FirstLineIdsFresh<P>(routes: map<string, seq<P>>, lines: seq<string>)
    requires NoDup(lines) && lines != []
    ensures forall x <- SeedLine(routes, lines[0]), y <- SeedAll(routes, lines[1..]) :: x.id != y.id
  {
    SeededIdShape(routes, lines);
    forall x <- SeedLine(routes, lines[0]), y <- SeedAll(routes, lines[1..]) ensures x.id != y.id {
      assert x in SeedAll(routes, lines) && y in SeedAll(routes, lines);
      assert y.line in lines[1..] && x.line == lines[0];
      if x.id == y.id {
        IdDeterminesBus(x, y);
      }
    }
  }

  /** Seeding duplicate-free active lines gives every bus a different id
      (the marker key on the map). */
  lemma {:induction false} SeededIdsUnique<P>(routes: map<string, seq<P>>, lines: seq<string>)
    requires NoDup(lines)
    ensures UniqueIds(SeedAll(routes, lines))
  {
    if lines != [] {
      var head := SeedLine(routes, lines[0]);
      assert NoDup(lines[1..]);
      SeededIdsUnique(routes, lines[1..]);
      FirstLineIdsFresh(routes, lines);
      assert UniqueIds(head) by {
        if |head| == 2 {
          assert head[0].id != head[1].id;
        }
      }
      UniqueIdsAppend(head, SeedAll(routes, lines[1..]));
    }
  }
}
