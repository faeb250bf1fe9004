/**
 * The risk slider of the safety card: the slider value is inverted and
 * classified into one of four danger levels, and each of the four level
 * icons is drawn in colour when the inverted value lies below its
 * threshold.
 */
module SafetyCard {
  import Strings

  /** The four entries of `DANGER_LEVELS`. */
  datatype DangerLevel = Minor | Moderate | Significant | Critical

  /** Severity order: Minor is the least severe, Critical the most. */
  function Rank(l: DangerLevel): nat
  {
    match l
    case Minor => 0
    case Moderate => 1
    case Significant => 2
    case Critical => 3
  }

  function Threshold(l: DangerLevel): (t: int)
    ensures t == 25 * (Rank(l) + 1)
  {
    match l
    case Minor => 25
    case Moderate => 50
    case Significant => 75
    case Critical => 100
  }

  function Color(l: DangerLevel): string
  {
    match l
    case Minor => "bg-yellow-300"
    case Moderate => "bg-yellow-500"
    case Significant => "bg-red-300"
    case Critical => "bg-red-500"
  }

  function Label(l: DangerLevel): string
  {
    match l
    case Minor => "Minor"
    case Moderate => "Moderate"
    case Significant => "Significant"
    case Critical => "Critical"
  }

  /** The `text` of each level: the kind of disturbance a user is notified of. */
  function Description(l: DangerLevel): (d: string)
    ensures |d| == DescriptionLength(l)
  {
    match l
    case Minor => "You will be notified of minor disturbances or higher (vandalism, graffiti)."
    case Moderate => "You will be notified of moderate disturbances or higher (reckless driving, noise)."
    case Significant => "You will be notified of significant disturbances or higher (protests, major disruptions)."
    case Critical => "You will be notified of critical disturbances (life-threatening risks, riots, violent crime)."
  }

  /** The slider runs from 0 to its `max` of 100 in steps of 1. */
  type SliderValue = x: int | 0 <= x <= 100

  /** `useState<number>(0)`. */
  const InitialDangerLevel: SliderValue := 0

  /** The slider is inverted so that its left end is the most severe setting. */
  function InvertedValue(dangerLevel: SliderValue): (v: int)
    ensures 0 <= v <= 100
    ensures v + dangerLevel == 100
  {
    100 - dangerLevel
  }

  /**
   * `getCurrentLevel`: the least severe level whose threshold is not
   * below the inverted value, and Critical when there is none.
   */
  function CurrentLevel(inverted: int): (l: DangerLevel)
    ensures l == Critical || inverted <= Threshold(l)
    ensures forall m :: Rank(m) < Rank(l) ==> Threshold(m) < inverted
  {
    if inverted <= Threshold(Minor) then Minor
    else if inverted <= Threshold(Moderate) then Moderate
    else if inverted <= Threshold(Significant) then Significant
    else Critical
  }

  /** The four bands of the inverted value, each in both directions. */
  lemma LevelBands(inverted: int)
    ensures CurrentLevel(inverted) == Minor <==> inverted <= 25
    ensures CurrentLevel(inverted) == Moderate <==> 25 < inverted <= 50
    ensures CurrentLevel(inverted) == Significant <==> 50 < inverted <= 75
    ensures CurrentLevel(inverted) == Critical <==> 75 < inverted
  {
    var l := CurrentLevel(inverted);
    assert Rank(Minor) < Rank(l) ==> Threshold(Minor) < inverted;
    assert Rank(Moderate) < Rank(l) ==> Threshold(Moderate) < inverted;
    assert Rank(Significant) < Rank(l) ==> Threshold(Significant) < inverted;
  }

  /** Moving the slider to the right never selects a more severe level. */
  lemma RaisingDangerLevelIsNeverMoreSevere(d1: SliderValue, d2: SliderValue)
    requires d1 <= d2
    ensures Rank(CurrentLevel(InvertedValue(d2))) <= Rank(CurrentLevel(InvertedValue(d1)))
  {
  }

  /** `levels`: the icon row, most severe first. */
  const Levels: seq<DangerLevel> := [Critical, Significant, Moderate, Minor]
  const Icons: seq<string> := ["level4.svg", "level3.svg", "level2.svg", "level1.svg"]
  const IconsBw: seq<string> := ["level4-bw.svg", "level3-bw.svg", "level2-bw.svg", "level1-bw.svg"]

  /** `levels`, `icons` and `iconsBw` pair up index by index, from the most severe level down. */
  lemma IconsPairWithLevels()
    ensures |Levels| == |Icons| == |IconsBw| == 4
    ensures forall i :: 0 <= i < 4 ==> Rank(Levels[i]) == 3 - i
    ensures forall i :: 0 <= i < 4 ==> Icons[i] == "level" + [(4 - i + '0' as int) as char] + ".svg"
    ensures forall i :: 0 <= i < 4 ==> IconsBw[i] == Icons[i][..6] + "-bw.svg"
  {
    assert Icons[0] == "level" + ['4'] + ".svg";
    assert Icons[1] == "level" + ['3'] + ".svg";
    assert Icons[2] == "level" + ['2'] + ".svg";
    assert Icons[3] == "level" + ['1'] + ".svg";
    assert IconsBw[0] == Icons[0][..6] + "-bw.svg";
    assert IconsBw[1] == Icons[1][..6] + "-bw.svg";
    assert IconsBw[2] == Icons[2][..6] + "-bw.svg";
    assert IconsBw[3] == Icons[3][..6] + "-bw.svg";
  }

  /** `isBelowThreshold`: the icon of level `l` is drawn in colour. */
  predicate IsBelowThreshold(inverted: int, l: DangerLevel)
  {
    inverted < Threshold(l)
  }

  /** One `Image` of the icon row. */
  datatype IconView = IconView(alt: string, src: string, className: string)

  /** The class of a coloured icon: the level's background colour as a text colour. */
  function TextColor(l: DangerLevel): (c: string)
    ensures c == "text-" + Color(l)[3..]
  {
    assert Strings.OccursAt(Color(l), "bg-", 0);
    Strings.ReplaceFirst(Color(l), "bg-", "text-")
  }

  /** The icon of `levels[i]`. */
  function IconOf(inverted: int, i: nat): (v: IconView)
    requires i < 4
    ensures v.alt == Label(Levels[i])
    ensures v.src == Icons[i] <==> inverted < Threshold(Levels[i])
    ensures v.src == IconsBw[i] <==> Threshold(Levels[i]) <= inverted
    ensures v.className == "h-6 w-6 " +
      (if inverted < Threshold(Levels[i]) then "text-" + Color(Levels[i])[3..] else "text-muted-foreground")
  {
    assert Icons[i] != IconsBw[i] by {
      assert |Icons[i]| != |IconsBw[i]|;
    }
    var level := Levels[i];
    var below := IsBelowThreshold(inverted, level);
    IconView(Label(level),
             if !below then IconsBw[i] else Icons[i],
             "h-6 w-6 " + if below then TextColor(level) else "text-muted-foreground")
  }

  /**
   * The icon row: one icon per level, most severe first, labelled with
   * the level; the coloured image and the level's text colour exactly
   * when the inverted value lies below the level's threshold.
   */
  function IconRow(inverted: int): (row: seq<IconView>)
    ensures |row| == 4
    ensures forall i :: 0 <= i < 4 ==> row[i].alt == Label(Levels[i])
    ensures forall i :: 0 <= i < 4 ==>
      (row[i].src == Icons[i] <==> inverted < Threshold(Levels[i])) &&
      (row[i].src == IconsBw[i] <==> Threshold(Levels[i]) <= inverted)
    ensures forall i :: 0 <= i < 4 ==>
      row[i].className == "h-6 w-6 " +
        (if inverted < Threshold(Levels[i]) then "text-" + Color(Levels[i])[3..] else "text-muted-foreground")
  {
    var row := [IconOf(inverted, 0), IconOf(inverted, 1), IconOf(inverted, 2), IconOf(inverted, 3)];
    assert forall i :: 0 <= i < 4 ==> row[i] == IconOf(inverted, i);
    row
  }

  /** The coloured icons are exactly those of the levels with a threshold above some bound. */
  lemma ColouringIsUpwardClosed(inverted: int, l: DangerLevel, m: DangerLevel)
    requires IsBelowThreshold(inverted, l) && Threshold(l) <= Threshold(m)
    ensures IsBelowThreshold(inverted, m)
  {
  }

  /** How many of the given levels have a coloured icon. */
  function ColouredCount(inverted: int, ls: seq<DangerLevel>): nat
  {
    if |ls| == 0 then 0
    else ColouredCount(inverted, ls[..|ls| - 1]) + if IsBelowThreshold(inverted, ls[|ls| - 1]) then 1 else 0
  }

  /** On the slider's range, one fewer icon is coloured for every full 25 of the inverted value. */
  lemma ColouredIconCount(inverted: int)
    requires 0 <= inverted <= 100
    ensures ColouredCount(inverted, Levels) == 4 - inverted / 25
  {
    var b3, b2, b1, b0 :=
      IsBelowThreshold(inverted, Critical), IsBelowThreshold(inverted, Significant),
      IsBelowThreshold(inverted, Moderate), IsBelowThreshold(inverted, Minor);
    assert Levels[..3] == [Critical, Significant, Moderate];
    assert Levels[..3][..2] == [Critical, Significant];
    assert Levels[..3][..2][..1] == [Critical];
    assert [Critical][..0] == [];
    assert ColouredCount(inverted, [Critical]) == if b3 then 1 else 0;
    assert ColouredCount(inverted, [Critical, Significant]) == (if b3 then 1 else 0) + (if b2 then 1 else 0);
    assert ColouredCount(inverted, Levels[..3]) ==
      (if b3 then 1 else 0) + (if b2 then 1 else 0) + (if b1 then 1 else 0);
    assert ColouredCount(inverted, Levels) ==
      (if b3 then 1 else 0) + (if b2 then 1 else 0) + (if b1 then 1 else 0) + (if b0 then 1 else 0);
    if inverted < 25 {
      assert inverted / 25 == 0;
    } else if inverted < 50 {
      assert inverted / 25 == 1;
    } else if inverted < 75 {
      assert inverted / 25 == 2;
    } else if inverted < 100 {
      assert inverted / 25 == 3;
    }
  }

  /**
   * The icons of levels more severe than the current one are coloured,
   * those less severe are not; the current level's own icon is coloured
   * unless the inverted value sits exactly on its threshold.
   */
  lemma ColouringAgainstCurrentLevel(inverted: int, m: DangerLevel)
    ensures Rank(m) > Rank(CurrentLevel(inverted)) ==> IsBelowThreshold(inverted, m)
    ensures Rank(m) < Rank(CurrentLevel(inverted)) ==> !IsBelowThreshold(inverted, m)
    ensures m == CurrentLevel(inverted) && m != Critical ==>
      (IsBelowThreshold(inverted, m) <==> inverted != Threshold(m))
  {
  }

  /** With the slider at its initial position the level is Critical and no icon is coloured. */
  lemma InitialPositionIsCritical()
    ensures CurrentLevel(InvertedValue(InitialDangerLevel)) == Critical
    ensures forall m :: !IsBelowThreshold(InvertedValue(InitialDangerLevel), m)
    ensures forall i :: 0 <= i < 4 ==> IconRow(InvertedValue(InitialDangerLevel))[i].src == IconsBw[i]
  {
  }

  /** At an inverted value of exactly 25 the level is Minor, yet the Minor icon stays grey. */
  lemma MinorBoundary()
    ensures CurrentLevel(25) == Minor
    ensures !IsBelowThreshold(25, Minor)
    ensures IconRow(25)[3].src == "level1-bw.svg"
  {
  }

  function DescriptionLength(l: DangerLevel): nat
  {
    match l
    case Minor => 75
    case Moderate => 82
    case Significant => 89
    case Critical => 93
  }

  /** Each level has its own description; the four texts even differ in length. */
  lemma DescriptionsDiffer(l: DangerLevel, m: DangerLevel)
    ensures Description(l) == Description(m) <==> l == m
  {
    if l != m {
      assert DescriptionLength(l) != DescriptionLength(m);
    }
  }

  /** The danger description box below the icons: its class string and its text. */
  datatype Box = Box(className: string, text: string)

  /**
   * Lines 102-104: the box carries the current level's background colour
   * and description, so it reads "minor" exactly on the band up to 25 and
   * "critical" exactly above 75.
   */
  function DescriptionBox(inverted: int): (b: Box)
    ensures b.className == "p-3 rounded-md bg-opacity-20 border-l-4 " + Color(CurrentLevel(inverted))
    ensures b.text == Description(CurrentLevel(inverted))
    ensures b.text == Description(Minor) <==> inverted <= 25
    ensures b.text == Description(Critical) <==> 75 < inverted
  {
    LevelBands(inverted);
    var l := CurrentLevel(inverted);
    DescriptionsDiffer(l, Minor);
    DescriptionsDiffer(l, Critical);
    Box("p-3 rounded-md bg-opacity-20 border-l-4 " + Color(l), Description(l))
  }
}
