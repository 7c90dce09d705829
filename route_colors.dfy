/** The per-line colour table of the live map and its two fallbacks:
    one for route polylines, one for bus markers. */
module RouteColors {

  /** ROUTE_COLORS: lines "15" to "30", one colour each. */
  const Table: map<string, string> := map[
    "15" := "#FF5252",
    "16" := "#4CAF50",
    "17" := "#2196F3",
    "18" := "#FFC107",
    "19" := "#9C27B0",
    "20" := "#FF9800",
    "21" := "#00BCD4",
    "22" := "#E91E63",
    "23" := "#8BC34A",
    "24" := "#795548",
    "25" := "#607D8B",
    "26" := "#3F51B5",
    "27" := "#009688",
    "28" := "#673AB7",
    "29" := "#CDDC39",
    "30" := "#FF5722"
  ]

  /** Colour of a polyline whose line has no table entry (green). */
  const PolylineFallback: string := "#00FF00"

  /** Colour of a marker whose line has no table entry (blue). */
  const MarkerFallback: string := "#2196F3"

  /** The decimal numeral of a two-digit number. */
  function Numeral(n: nat): (s: string)
    requires 10 <= n < 100
    ensures |s| == 2 && '1' <= s[0] <= '9' && '0' <= s[1] <= '9'
    ensures (s[0] as int - '0' as int) * 10 + (s[1] as int - '0' as int) == n
  {
    [(('0' as int) + n / 10) as char, (('0' as int) + n % 10) as char]
  }

  /** `ROUTE_COLORS[line] || '#00FF00'`: every table entry is a non-empty
      string, so the fallback is taken exactly when the line is not listed. */
  function PolylineColor(line: string): string
  {
    if line in Table then Table[line] else PolylineFallback
  }

  /** `ROUTE_COLORS[line] || '#2196F3'`. */
  function MarkerColor(line: string): string
  {
    if line in Table then Table[line] else MarkerFallback
  }

  /** The table lists exactly the lines numbered 15 to 30. */
  lemma ListedLines(n: nat)
    requires 10 <= n < 100
    ensures Numeral(n) in Table <==> 15 <= n <= 30
  {
  }

  /** Every key of the table is the numeral of a number from 15 to 30. */
  lemma TableKeysAreNumerals(line: string)
    requires line in Table
    ensures |line| == 2 && exists n: nat :: 15 <= n <= 30 && Numeral(n) == line
  {
    var n := (line[0] as int - '0' as int) * 10 + (line[1] as int - '0' as int);
    assert 15 <= n <= 30;
    assert Numeral(n) == line;
  }

  /** Polyline and marker agree on a line's colour exactly when the line is
      listed: the two fallbacks differ, so an unlisted line gets a green
      polyline and a blue marker. */
  lemma SameColourIffListed(line: string)
    ensures PolylineColor(line) == MarkerColor(line) <==> line in Table
  {
  }

  /** The sixteen listed lines have sixteen different colours, and the
      polyline fallback is none of them, so an unlisted line's polyline is
      told apart from every listed line's. The marker fallback, however, is
      line 17's colour: an unlisted line's markers look like line 17's. */
  lemma ColoursDistinguishLines(a: string, b: string)
    ensures a in Table && b in Table && a != b ==> PolylineColor(a) != PolylineColor(b)
    ensures a in Table && b !in Table ==> PolylineColor(a) != PolylineColor(b)
    ensures b !in Table ==> MarkerColor(b) == MarkerColor("17")
  {
  }
}
