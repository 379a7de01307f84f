/** What the notification helper computes before handing a notification to
    the platform: the reminder's labels and text, the daily summary's
    percentage and title, and the notification ids and request codes. The
    hash of a meal id is a parameter (any 32-bit `Int`); the JVM's `Int`
    wrap-around is written out where the arithmetic can overflow. */
module Notifications {
  import opened Common
  import opened Entities

  /** Notification ids of meal reminders start here. */
  const MealNotificationIdBase: int := 1000
  const SnoozeMinutes: nat := 15

  const GoalReached: string := "\U{1F3AF} Objectif calorique atteint !"
  const AlmostThere: string := "\U{1F44D} Presque à votre objectif"
  const HalfWay: string := "\U{1F4CA} À mi-chemin de votre objectif"
  const KeepGoing: string := "\U{1F4AA} Continuez vos efforts !"

  /** The French label of each meal type. */
  function MealTypeLabel(t: MealType): (r: string)
    ensures r != []
    ensures t == Breakfast <==> r == "Petit-déjeuner"
    ensures t == Lunch <==> r == "Déjeuner"
    ensures t == Dinner <==> r == "Dîner"
    ensures t == Snack <==> r == "Collation"
  {
    match t
    case Breakfast => "Petit-déjeuner"
    case Lunch => "Déjeuner"
    case Dinner => "Dîner"
    case Snack => "Collation"
  }

  /** Kotlin's string template of an `Int`. */
  function IntText(n: int): (r: string)
    ensures r != []
    ensures n >= 0 ==> r == Decimal(n)
    ensures n < 0 ==> r == "-" + Decimal(-n)
  {
    if n < 0 then "-" + Decimal(-n) else Decimal(n)
  }

  /** The reminder posted for a meal. */
  datatype MealReminder = MealReminder(
    notificationId: int,
    title: string,
    content: string,
    contentRequestCode: int,
    markEatenRequestCode: int,
    snoozeRequestCode: int,
    snoozeMinutes: nat,
    mealId: string)

  /** `MEAL_NOTIFICATION_ID_BASE + meal.id.hashCode()`, an `Int` sum. */
  function NotificationId(idHash: int): (r: int)
    requires MinInt <= idHash <= MaxInt
    ensures MinInt <= r <= MaxInt
    ensures idHash <= MaxInt - MealNotificationIdBase ==> r == MealNotificationIdBase + idHash
    ensures idHash > MaxInt - MealNotificationIdBase ==> r < 0
  {
    Wrap32(MealNotificationIdBase + idHash)
  }

  /** The reminder text: the meal's name, or a sentence naming its type
      when the name is empty. */
  function ReminderContent(meal: Meal): (r: string)
    ensures r != []
    ensures meal.name != [] ==> r == meal.name
    ensures meal.name == [] ==> r == "Votre " + MealTypeLabel(meal.mealType) + " est planifié maintenant"
  {
    if meal.name != [] then meal.name
    else "Votre " + MealTypeLabel(meal.mealType) + " est planifié maintenant"
  }

  /** `showMealReminder`. The content intent and the mark-eaten action use
      the hash itself as request code, the snooze action the hash plus 1. */
  function ShowMealReminder(meal: Meal, idHash: int): (r: MealReminder)
    requires MinInt <= idHash <= MaxInt
    ensures r.mealId == meal.id && r.notificationId == NotificationId(idHash)
    ensures r.title == "\U{23F0} Il est temps pour votre " + MealTypeLabel(meal.mealType)
    ensures r.content == ReminderContent(meal) && r.content != []
    ensures r.contentRequestCode == idHash && r.markEatenRequestCode == idHash
    ensures r.snoozeRequestCode == Wrap32(idHash + 1) && r.snoozeMinutes == 15
  {
    MealReminder(NotificationId(idHash),
                 "\U{23F0} Il est temps pour votre " + MealTypeLabel(meal.mealType),
                 ReminderContent(meal),
                 idHash, idHash, Wrap32(idHash + 1), SnoozeMinutes, meal.id)
  }

  /** `cancelMealNotification`: the id cancelled is the id posted for any
      meal with that id. */
  function CancelMealNotificationId(idHash: int): (r: int)
    requires MinInt <= idHash <= MaxInt
    ensures forall m: Meal :: ShowMealReminder(m, idHash).notificationId == r
  {
    NotificationId(idHash)
  }

  /** `cancelAllMealNotifications` cancels the ids 1000 to 1999. */
  predicate CancelledByCancelAll(id: int)
  {
    1000 <= id <= 1999
  }

  /** The two action request codes of a reminder never coincide, even for
      the largest hash, where the snooze code wraps around. */
  lemma {:induction false} ActionCodesDiffer(meal: Meal, idHash: int)
    requires MinInt <= idHash <= MaxInt
    ensures ShowMealReminder(meal, idHash).markEatenRequestCode != ShowMealReminder(meal, idHash).snoozeRequestCode
    ensures idHash < MaxInt ==> ShowMealReminder(meal, idHash).snoozeRequestCode == idHash + 1
    ensures idHash == MaxInt ==> ShowMealReminder(meal, idHash).snoozeRequestCode == MinInt
  {
    var s := Wrap32(idHash + 1);
    assert (s - (idHash + 1)) % 0x1_0000_0000 == 0;
    if idHash == MaxInt {
      assert s == MinInt;
    }
  }

  /** A reminder is removed by `cancelAllMealNotifications` exactly when
      its meal id hashes into 0..999; every other reminder survives. */
  lemma {:induction false} CancelAllReaches(meal: Meal, idHash: int)
    requires MinInt <= idHash <= MaxInt
    ensures CancelledByCancelAll(ShowMealReminder(meal, idHash).notificationId) <==> 0 <= idHash <= 999
  {
  }

  /** A concrete reminder outside the cancelled range. */
  lemma NegativeHashSurvivesCancelAll(meal: Meal)
    ensures ShowMealReminder(meal, -1).notificationId == 999
    ensures !CancelledByCancelAll(ShowMealReminder(meal, -1).notificationId)
  {
  }

  /** `(caloriesConsumed * 100) / caloriesTarget` in `Int` arithmetic when
      the target is positive, else 0. */
  function CaloriesPercentage(consumed: int, target: int): (r: int)
    requires MinInt <= consumed <= MaxInt && MinInt <= target <= MaxInt
    ensures target <= 0 ==> r == 0
    ensures target > 0 && 0 <= consumed * 100 <= MaxInt ==>
              0 <= r && r * target <= consumed * 100 < (r + 1) * target
  {
    if target <= 0 then 0
    else
      var scaled := Wrap32(consumed * 100);
      var q := Div(scaled, target);
      if 0 <= consumed * 100 <= MaxInt then
        assert scaled == consumed * 100;
        assert (q + 1) * target == q * target + target;
        assert q >= 0 by {
          if q < 0 {
            MulMonotone(q, -1, target);
          }
        }
        q
      else q
  }

  /** The summary's title, by the first threshold the percentage reaches. */
  function SummaryTitle(percentage: int): (r: string)
    ensures percentage >= 100 ==> r == GoalReached
    ensures 80 <= percentage < 100 ==> r == AlmostThere
    ensures 50 <= percentage < 80 ==> r == HalfWay
    ensures percentage < 50 ==> r == KeepGoing
  {
    if percentage >= 100 then GoalReached
    else if percentage >= 80 then AlmostThere
    else if percentage >= 50 then HalfWay
    else KeepGoing
  }

  /** The summary's text. */
  function SummaryContent(caloriesConsumed: int, caloriesTarget: int, proteinConsumed: int, proteinTarget: int)
    : (r: string)
    ensures |r| > |"Calories: "| && r[..|"Calories: "|] == "Calories: "
  {
    var details := IntText(caloriesConsumed) + "/" + IntText(caloriesTarget) +
                   " \U{2022} Protéines: " + IntText(proteinConsumed) + "g/" + IntText(proteinTarget) + "g";
    assert |details| > 0;
    assert ("Calories: " + details)[..|"Calories: "|] == "Calories: ";
    "Calories: " + details
  }

  /** A character of a rendered `Int`. */
  predicate IsNumberChar(c: char) { c == '-' || '0' <= c <= '9' }

  /** A rendered `Int` is made of digits and a leading minus. */
  lemma IntTextChars(n: int)
    ensures forall i :: 0 <= i < |IntText(n)| ==> IsNumberChar(IntText(n)[i])
  {
    if n < 0 {
      forall i | 0 <= i < |IntText(n)|
        ensures IsNumberChar(IntText(n)[i])
      {
        if i > 0 {
          assert IntText(n)[i] == Decimal(-n)[i - 1];
        }
      }
    }
  }

  /** Different `Int`s render differently. */
  lemma {:induction false} IntTextInjective(a: int, b: int)
    requires IntText(a) == IntText(b)
    ensures a == b
  {
    assert IntText(a)[0] == IntText(b)[0];
    assert IntText(a)[0] == '-' <==> a < 0;
    assert IntText(b)[0] == '-' <==> b < 0;
    if a >= 0 && b >= 0 {
      DigitsOfDecimal(a);
      DigitsOfDecimal(b);
    } else if a < 0 && b < 0 {
      assert Decimal(-a) == IntText(a)[1..];
      assert Decimal(-b) == IntText(b)[1..];
      DigitsOfDecimal(-a);
      DigitsOfDecimal(-b);
    }
  }

  /** A run of number characters followed by a character that cannot be
      part of a number is cut off in only one way. */
  lemma {:induction false} SplitAfterNumber(x: string, y: string, x2: string, y2: string)
    requires forall i :: 0 <= i < |x| ==> IsNumberChar(x[i])
    requires forall i :: 0 <= i < |x2| ==> IsNumberChar(x2[i])
    requires y != [] && !IsNumberChar(y[0]) && y2 != [] && !IsNumberChar(y2[0])
    requires x + y == x2 + y2
    ensures x == x2 && y == y2
  {
    NumberNotShorter(x, y, x2, y2);
    NumberNotShorter(x2, y2, x, y);
    assert x == (x + y)[..|x|] && x2 == (x2 + y2)[..|x2|];
    assert y == (x + y)[|x|..] && y2 == (x2 + y2)[|x2|..];
  }

  /** The number run of one side reaches at least as far as the other's. */
  lemma NumberNotShorter(x: string, y: string, x2: string, y2: string)
    requires forall i :: 0 <= i < |x2| ==> IsNumberChar(x2[i])
    requires y != [] && !IsNumberChar(y[0])
    requires x + y == x2 + y2
    ensures |x| >= |x2|
  {
    assert (x + y)[|x|] == y[0];
  }

  /** The summary text shows the four numbers in order after their labels:
      two summaries read the same only when all four numbers agree. */
  lemma {:induction false} SummaryContentDeterminesNumbers(a: int, b: int, c: int, d: int,
                                                           a2: int, b2: int, c2: int, d2: int)
    requires SummaryContent(a, b, c, d) == SummaryContent(a2, b2, c2, d2)
    ensures a == a2 && b == b2 && c == c2 && d == d2
  {
    var head := "Calories: ";
    var protein := " \U{2022} Protéines: ";
    var q1, r1, q2, r2, q3, r3, r4 := SummaryParts(a, b, c, d);
    var q1', r1', q2', r2', q3', r3', r4' := SummaryParts(a2, b2, c2, d2);
    assert q1 == (head + q1)[|head|..] && q1' == (head + q1')[|head|..];
    IntTextChars(a); IntTextChars(a2);
    SplitAfterNumber(IntText(a), r1, IntText(a2), r1');
    assert q2 == r1[1..] && q2' == r1'[1..];
    IntTextChars(b); IntTextChars(b2);
    SplitAfterNumber(IntText(b), r2, IntText(b2), r2');
    assert q3 == r2[|protein|..] && q3' == r2'[|protein|..];
    IntTextChars(c); IntTextChars(c2);
    SplitAfterNumber(IntText(c), r3, IntText(c2), r3');
    assert r4 == r3[2..] && r4' == r3'[2..];
    IntTextChars(d); IntTextChars(d2);
    SplitAfterNumber(IntText(d), "g", IntText(d2), "g");
    IntTextInjective(a, a2);
    IntTextInjective(b, b2);
    IntTextInjective(c, c2);
    IntTextInjective(d, d2);
  }

  /** The summary text cut after its label, each number and each separator. */
  lemma SummaryParts(a: int, b: int, c: int, d: int)
    returns (q1: string, r1: string, q2: string, r2: string, q3: string, r3: string, r4: string)
    ensures r4 == IntText(d) + "g" && r3 == "g/" + r4
    ensures q3 == IntText(c) + r3 && r2 == " \U{2022} Protéines: " + q3
    ensures q2 == IntText(b) + r2 && r1 == "/" + q2 && q1 == IntText(a) + r1
    ensures SummaryContent(a, b, c, d) == "Calories: " + q1
  {
    r4 := IntText(d) + "g";
    r3 := "g/" + r4;
    q3 := IntText(c) + r3;
    r2 := " \U{2022} Protéines: " + q3;
    q2 := IntText(b) + r2;
    r1 := "/" + q2;
    q1 := IntText(a) + r1;
    RightNested(IntText(a), "/", IntText(b), " \U{2022} Protéines: ", IntText(c), "g/", IntText(d), "g");
  }

  /** Concatenation regrouped to the right. */
  lemma RightNested(s1: string, s2: string, s3: string, s4: string, s5: string, s6: string, s7: string, s8: string)
    ensures s1 + s2 + s3 + s4 + s5 + s6 + s7 + s8 == s1 + (s2 + (s3 + (s4 + (s5 + (s6 + (s7 + s8))))))
  {
    assert s1 + s2 + s3 + s4 + s5 + s6 + s7 + s8 == (s1 + s2 + s3 + s4 + s5 + s6) + (s7 + s8);
    assert (s1 + s2 + s3 + s4 + s5 + s6) + (s7 + s8) == (s1 + s2 + s3 + s4 + s5) + (s6 + (s7 + s8));
    assert (s1 + s2 + s3 + s4 + s5) + (s6 + (s7 + s8)) == (s1 + s2 + s3 + s4) + (s5 + (s6 + (s7 + s8)));
    assert (s1 + s2 + s3 + s4) + (s5 + (s6 + (s7 + s8))) == (s1 + s2 + s3) + (s4 + (s5 + (s6 + (s7 + s8))));
    assert (s1 + s2 + s3) + (s4 + (s5 + (s6 + (s7 + s8)))) == (s1 + s2) + (s3 + (s4 + (s5 + (s6 + (s7 + s8)))));
  }

  /** Without overflow, the percentage reaches `k` exactly when the
      consumed calories reach `k` hundredths of the target. */
  lemma {:induction false} PercentageAtLeast(consumed: int, target: int, k: int)
    requires 0 <= consumed && 0 < target <= MaxInt && consumed * 100 <= MaxInt
    ensures CaloriesPercentage(consumed, target) >= k <==> consumed * 100 >= k * target
  {
    var p := CaloriesPercentage(consumed, target);
    if p >= k {
      assert k * target <= p * target by {
        MulMonotone(k, p, target);
      }
    } else {
      assert (p + 1) * target <= k * target by {
        MulMonotone(p + 1, k, target);
      }
    }
  }

  lemma MulMonotone(a: int, b: int, c: int)
    requires a <= b && 0 < c
    ensures a * c <= b * c
  {
    assert b * c - a * c == (b - a) * c;
  }

  /** The title the summary shows, in terms of the two calorie counts. */
  lemma {:induction false} SummaryTitleOfCalories(consumed: int, target: int)
    requires 0 <= consumed && 0 < target <= MaxInt && consumed * 100 <= MaxInt
    ensures var title := SummaryTitle(CaloriesPercentage(consumed, target));
      (title == GoalReached <==> consumed >= target) &&
      (title == AlmostThere <==> 4 * target <= 5 * consumed && consumed < target) &&
      (title == HalfWay <==> target <= 2 * consumed && 5 * consumed < 4 * target) &&
      (title == KeepGoing <==> 2 * consumed < target)
  {
    PercentageAtLeast(consumed, target, 100);
    PercentageAtLeast(consumed, target, 80);
    PercentageAtLeast(consumed, target, 50);
  }

  /** Past about 21 million consumed calories, `consumed * 100` wraps to a
      negative `Int` and the summary says to keep going although the target
      is exceeded. */
  lemma WrappedPercentage()
    ensures CaloriesPercentage(21474837, 2000) < 0
    ensures SummaryTitle(CaloriesPercentage(21474837, 2000)) == KeepGoing
  {
    assert Wrap32(21474837 * 100) == 2147483700 - 0x1_0000_0000;
  }
}
