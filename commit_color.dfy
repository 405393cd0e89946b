/** The contribution-graph colour scale: `getCommitColor` maps a commit count
    to one of five CSS class names, from no activity to the most activity. */
module CommitColor {

  /** The five classes, ordered from least to most intense. */
  const Palette: seq<string> :=
    ["bg-slate-800", "bg-cyan-900", "bg-cyan-700", "bg-cyan-500", "bg-cyan-400"]

  /** The smallest non-negative count that gets each class. */
  const LowerBound: seq<int> := [0, 1, 3, 5, 7]

  /** The largest count that gets each class except the last, which has no bound. */
  const UpperBound: seq<int> := [0, 2, 4, 6]

  /** The colour of a cell showing `count` commits. The checks run in order, so a
      negative count fails the first test and passes the second. */
  function CommitColor(count: int): (r: string)
    ensures r in Palette
    ensures count >= 7 ==> r == Palette[4]
    ensures r == Palette[0] <==> count == 0
  {
    if count == 0 then "bg-slate-800"
    else if count <= 2 then "bg-cyan-900"
    else if count <= 4 then "bg-cyan-700"
    else if count <= 6 then "bg-cyan-500"
    else "bg-cyan-400"
  }

  /** How intense a class is: its position in the palette. */
  function Intensity(color: string): (k: nat)
    requires color in Palette
    ensures k < |Palette| && Palette[k] == color
  {
    if color == Palette[0] then 0
    else if color == Palette[1] then 1
    else if color == Palette[2] then 2
    else if color == Palette[3] then 3
    else 4
  }

  /** For a non-negative count, the class chosen is bucket `k` exactly when the
      count lies in that bucket's range. */
  lemma BucketRanges(count: int, k: nat)
    requires count >= 0 && k < |Palette|
    ensures CommitColor(count) == Palette[k]
        <==> LowerBound[k] <= count && (k == |Palette| - 1 || count <= UpperBound[k])
  {
  }

  /** More commits never give a paler cell. */
  lemma IntensityMonotone(c1: int, c2: int)
    requires 0 <= c1 <= c2
    ensures Intensity(CommitColor(c1)) <= Intensity(CommitColor(c2))
  {
  }

  /** The "Less ... More" legend, which the page keeps commented out, would sample
      0, 2, 4, 6, 8 and show every class once, from palest to most intense. */
  lemma LegendShowsPaletteInOrder()
    ensures seq(5, i requires 0 <= i < 5 => CommitColor(2 * i)) == Palette
  {
  }

  /** A negative count is not treated as zero: it takes the second class. */
  lemma NegativeCountIsNotPalest(count: int)
    requires count < 0
    ensures CommitColor(count) == Palette[1]
  {
  }
}
