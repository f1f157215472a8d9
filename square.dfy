/**
 * The intensity class of one calendar square (components/square.tsx): a count is
 * shown at one of five levels, "square" for nothing and "square alive-1" through
 * "square alive-4" for increasing activity.
 */
module Square {

  /** The lowest count of each level 1..4: a count reaches level k when it is at least
      the k-th threshold. */
  const Thresholds: seq<int> := [1, 2, 4, 7]

  /** How many of `ts` are at most `count`. */
  function Reached(ts: seq<int>, count: int): (n: nat)
    ensures n <= |ts|
    decreases |ts|
  {
    if ts == [] then 0 else (if ts[0] <= count then 1 else 0) + Reached(ts[1..], count)
  }

  /** The level of a count: the number of thresholds it reaches, 0 to 4. */
  function LevelOf(count: int): (level: nat)
    ensures level <= 4
  {
    Reached(Thresholds, count)
  }

  const ClassNames: seq<string> := ["square", "square alive-1", "square alive-2", "square alive-3", "square alive-4"]

  function ClassName(level: nat): string
    requires level <= 4
  {
    ClassNames[level]
  }

  /** The class chosen by the component's if-chain, which is the class of the count's
      level. */
  function IntensityClass(contributionCount: int): (intensityClass: string)
    ensures intensityClass == ClassName(LevelOf(contributionCount))
  {
    if contributionCount > 0 then
      if contributionCount == 1 then "square alive-1"
      else if contributionCount >= 2 && contributionCount <= 3 then "square alive-2"
      else if contributionCount >= 4 && contributionCount <= 6 then "square alive-3"
      else "square alive-4"
    else "square"
  }

  /** Reaching thresholds is monotone in the count. */
  lemma {:induction false} ReachedMonotone(ts: seq<int>, a: int, b: int)
    requires a <= b
    ensures Reached(ts, a) <= Reached(ts, b)
    decreases |ts|
  {
    if ts != [] {
      ReachedMonotone(ts[1..], a, b);
    }
  }

  /** More contributions never show a lighter square. */
  lemma LevelMonotone(a: int, b: int)
    requires a <= b
    ensures LevelOf(a) <= LevelOf(b)
  {
    ReachedMonotone(Thresholds, a, b);
  }

  /** The five bands: nothing, 1, 2-3, 4-6 and 7 or more. */
  lemma LevelBands(count: int)
    ensures LevelOf(count) == 0 <==> count <= 0
    ensures LevelOf(count) == 1 <==> count == 1
    ensures LevelOf(count) == 2 <==> 2 <= count <= 3
    ensures LevelOf(count) == 3 <==> 4 <= count <= 6
    ensures LevelOf(count) == 4 <==> 7 <= count
  {
  }

  /** Distinct levels are distinct classes, so the class shows the level. */
  lemma ClassShowsLevel(a: int, b: int)
    ensures IntensityClass(a) == IntensityClass(b) <==> LevelOf(a) == LevelOf(b)
  {
    var x, y := ClassName(LevelOf(a)), ClassName(LevelOf(b));
    if LevelOf(a) != LevelOf(b) {
      assert |x| != |y| || x[|x| - 1] != y[|y| - 1];
    }
  }
}
