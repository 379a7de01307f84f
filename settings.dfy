/** The settings manager: five typed preferences stored in one shared
    key-value map, each read with a default when absent, plus reset,
    export and import. A stored value of another type than the one a
    getter asks for makes the platform throw; a getter then returns None. */
module Settings {
  import opened Common

  const NotificationsEnabledKey: string := "notifications_enabled"
  const MealRemindersEnabledKey: string := "meal_reminders_enabled"
  const ReminderAdvanceMinutesKey: string := "reminder_advance_minutes"
  const NutritionSummaryEnabledKey: string := "nutrition_summary_enabled"
  const AppFirstLaunchKey: string := "app_first_launch"

  /** The value types a preferences store holds (Float as a real, Long as
      an unbounded integer). */
  datatype PrefValue = BoolValue(b: bool) | IntValue(i: int) | StringValue(s: string) | FloatValue(f: real)
                     | LongValue(l: int)

  /** A value of an exported or imported map, whose static type is `Any`:
      a storable value or something else. */
  datatype AnyValue = Storable(value: PrefValue) | Unstorable

  /** `getBoolean(key, default)`. */
  function GetBoolean(prefs: map<string, PrefValue>, key: string, default: bool): (r: Option<bool>)
    ensures key !in prefs ==> r == Some(default)
    ensures key in prefs ==> (r.Some? <==> prefs[key].BoolValue?)
    ensures key in prefs && prefs[key].BoolValue? ==> r == Some(prefs[key].b)
  {
    if key !in prefs then Some(default)
    else if prefs[key].BoolValue? then Some(prefs[key].b)
    else None
  }

  /** `getInt(key, default)`. */
  function GetInt(prefs: map<string, PrefValue>, key: string, default: int): (r: Option<int>)
    ensures key !in prefs ==> r == Some(default)
    ensures key in prefs ==> (r.Some? <==> prefs[key].IntValue?)
    ensures key in prefs && prefs[key].IntValue? ==> r == Some(prefs[key].i)
  {
    if key !in prefs then Some(default)
    else if prefs[key].IntValue? then Some(prefs[key].i)
    else None
  }

  /** What the five getters return. */
  datatype Readings = Readings(
    notificationsEnabled: Option<bool>,
    mealRemindersEnabled: Option<bool>,
    reminderAdvanceMinutes: Option<int>,
    nutritionSummaryEnabled: Option<bool>,
    isFirstLaunch: Option<bool>)

  const Defaults: Readings := Readings(Some(true), Some(true), Some(0), Some(true), Some(true))

  function Read(prefs: map<string, PrefValue>): (r: Readings)
    ensures r.notificationsEnabled == GetBoolean(prefs, NotificationsEnabledKey, true)
    ensures r.mealRemindersEnabled == GetBoolean(prefs, MealRemindersEnabledKey, true)
    ensures r.reminderAdvanceMinutes == GetInt(prefs, ReminderAdvanceMinutesKey, 0)
    ensures r.nutritionSummaryEnabled == GetBoolean(prefs, NutritionSummaryEnabledKey, true)
    ensures r.isFirstLaunch == GetBoolean(prefs, AppFirstLaunchKey, true)
  {
    Readings(GetBoolean(prefs, NotificationsEnabledKey, true),
             GetBoolean(prefs, MealRemindersEnabledKey, true),
             GetInt(prefs, ReminderAdvanceMinutesKey, 0),
             GetBoolean(prefs, NutritionSummaryEnabledKey, true),
             GetBoolean(prefs, AppFirstLaunchKey, true))
  }

  /** The five keys are distinct. */
  lemma KeysDistinct()
    ensures NotificationsEnabledKey != MealRemindersEnabledKey
    ensures NotificationsEnabledKey != ReminderAdvanceMinutesKey
    ensures NotificationsEnabledKey != NutritionSummaryEnabledKey
    ensures NotificationsEnabledKey != AppFirstLaunchKey
    ensures MealRemindersEnabledKey != ReminderAdvanceMinutesKey
    ensures MealRemindersEnabledKey != NutritionSummaryEnabledKey
    ensures MealRemindersEnabledKey != AppFirstLaunchKey
    ensures ReminderAdvanceMinutesKey != NutritionSummaryEnabledKey
    ensures ReminderAdvanceMinutesKey != AppFirstLaunchKey
    ensures NutritionSummaryEnabledKey != AppFirstLaunchKey
  {
    assert NotificationsEnabledKey[0] == 'n' && MealRemindersEnabledKey[0] == 'm';
    assert ReminderAdvanceMinutesKey[0] == 'r' && AppFirstLaunchKey[0] == 'a';
    assert NutritionSummaryEnabledKey[0] == 'n' && NotificationsEnabledKey[1] == 'o' &&
           NutritionSummaryEnabledKey[1] == 'u';
  }

  /** `exportSettings`: the four settings other than the first-launch
      flag, each with its getter's value. If a getter throws, so does the
      export (None). */
  function Export(prefs: map<string, PrefValue>): (r: Option<map<string, AnyValue>>)
    ensures var g := Read(prefs);
      r.Some? <==> g.notificationsEnabled.Some? && g.mealRemindersEnabled.Some? &&
                   g.reminderAdvanceMinutes.Some? && g.nutritionSummaryEnabled.Some?
    ensures r.Some? ==>
              r.value.Keys == {NotificationsEnabledKey, MealRemindersEnabledKey, ReminderAdvanceMinutesKey,
                               NutritionSummaryEnabledKey} &&
              AppFirstLaunchKey !in r.value &&
              r.value[NotificationsEnabledKey] == Storable(BoolValue(Read(prefs).notificationsEnabled.value)) &&
              r.value[MealRemindersEnabledKey] == Storable(BoolValue(Read(prefs).mealRemindersEnabled.value)) &&
              r.value[ReminderAdvanceMinutesKey] == Storable(IntValue(Read(prefs).reminderAdvanceMinutes.value)) &&
              r.value[NutritionSummaryEnabledKey] == Storable(BoolValue(Read(prefs).nutritionSummaryEnabled.value))
  {
    KeysDistinct();
    var g := Read(prefs);
    if g.notificationsEnabled.None? || g.mealRemindersEnabled.None? ||
       g.reminderAdvanceMinutes.None? || g.nutritionSummaryEnabled.None? then None
    else
      Some(map[NotificationsEnabledKey := Storable(BoolValue(g.notificationsEnabled.value)),
               MealRemindersEnabledKey := Storable(BoolValue(g.mealRemindersEnabled.value)),
               ReminderAdvanceMinutesKey := Storable(IntValue(g.reminderAdvanceMinutes.value)),
               NutritionSummaryEnabledKey := Storable(BoolValue(g.nutritionSummaryEnabled.value))])
  }

  /** The entries `importSettings` writes: the storable ones. */
  function Imported(settings: map<string, AnyValue>): (r: map<string, PrefValue>)
    ensures forall k :: k in r <==> k in settings && settings[k].Storable?
    ensures forall k :: k in r ==> settings[k] == Storable(r[k])
  {
    map k | k in settings && settings[k].Storable? :: settings[k].value
  }

  /** Importing what was exported changes no getter's result. */
  lemma {:induction false} ImportExportRoundTrip(prefs: map<string, PrefValue>)
    requires Export(prefs).Some?
    ensures Read(prefs + Imported(Export(prefs).value)) == Read(prefs)
  {
    KeysDistinct();
    var e := Export(prefs).value;
    var after := prefs + Imported(e);
    assert after[NotificationsEnabledKey] == BoolValue(Read(prefs).notificationsEnabled.value);
    assert after[MealRemindersEnabledKey] == BoolValue(Read(prefs).mealRemindersEnabled.value);
    assert after[ReminderAdvanceMinutesKey] == IntValue(Read(prefs).reminderAdvanceMinutes.value);
    assert after[NutritionSummaryEnabledKey] == BoolValue(Read(prefs).nutritionSummaryEnabled.value);
    assert AppFirstLaunchKey !in Imported(e);
  }

  /** Importing a value of the wrong type under a known key is accepted,
      and the getter of that key throws from then on. */
  lemma WrongTypeBreaksGetter(prefs: map<string, PrefValue>)
    ensures Read(prefs + Imported(map[NotificationsEnabledKey := Storable(IntValue(1))])).notificationsEnabled.None?
    ensures Export(prefs + Imported(map[NotificationsEnabledKey := Storable(IntValue(1))])).None?
  {
    var m := map[NotificationsEnabledKey := Storable(IntValue(1))];
    assert NotificationsEnabledKey in Imported(m);
  }

  class SettingsManager {
    /** The shared preferences file. */
    var prefs: map<string, PrefValue>

    constructor(stored: map<string, PrefValue>)
      ensures prefs == stored
    {
      prefs := stored;
    }

    function NotificationsEnabled(): Option<bool>
      reads this
    {
      GetBoolean(prefs, NotificationsEnabledKey, true)
    }

    function MealRemindersEnabled(): Option<bool>
      reads this
    {
      GetBoolean(prefs, MealRemindersEnabledKey, true)
    }

    function ReminderAdvanceMinutes(): Option<int>
      reads this
    {
      GetInt(prefs, ReminderAdvanceMinutesKey, 0)
    }

    function NutritionSummaryEnabled(): Option<bool>
      reads this
    {
      GetBoolean(prefs, NutritionSummaryEnabledKey, true)
    }

    function IsFirstLaunch(): Option<bool>
      reads this
    {
      GetBoolean(prefs, AppFirstLaunchKey, true)
    }

    method SetNotificationsEnabled(value: bool)
      modifies this
      ensures prefs == old(prefs)[NotificationsEnabledKey := BoolValue(value)]
      ensures Read(prefs) == old(Read(prefs)).(notificationsEnabled := Some(value))
    {
      KeysDistinct();
      prefs := prefs[NotificationsEnabledKey := BoolValue(value)];
    }

    method SetMealRemindersEnabled(value: bool)
      modifies this
      ensures prefs == old(prefs)[MealRemindersEnabledKey := BoolValue(value)]
      ensures Read(prefs) == old(Read(prefs)).(mealRemindersEnabled := Some(value))
    {
      KeysDistinct();
      prefs := prefs[MealRemindersEnabledKey := BoolValue(value)];
    }

    method SetReminderAdvanceMinutes(value: int)
      requires MinInt <= value <= MaxInt
      modifies this
      ensures prefs == old(prefs)[ReminderAdvanceMinutesKey := IntValue(value)]
      ensures Read(prefs) == old(Read(prefs)).(reminderAdvanceMinutes := Some(value))
    {
      KeysDistinct();
      prefs := prefs[ReminderAdvanceMinutesKey := IntValue(value)];
    }

    method SetNutritionSummaryEnabled(value: bool)
      modifies this
      ensures prefs == old(prefs)[NutritionSummaryEnabledKey := BoolValue(value)]
      ensures Read(prefs) == old(Read(prefs)).(nutritionSummaryEnabled := Some(value))
    {
      KeysDistinct();
      prefs := prefs[NutritionSummaryEnabledKey := BoolValue(value)];
    }

    method SetIsFirstLaunch(value: bool)
      modifies this
      ensures prefs == old(prefs)[AppFirstLaunchKey := BoolValue(value)]
      ensures Read(prefs) == old(Read(prefs)).(isFirstLaunch := Some(value))
    {
      KeysDistinct();
      prefs := prefs[AppFirstLaunchKey := BoolValue(value)];
    }

    /** `resetAllSettings`: the store is cleared, so every getter is back
        to its default. */
    method ResetAllSettings()
      modifies this
      ensures prefs == map[]
      ensures Read(prefs) == Defaults
    {
      prefs := map[];
    }

    /** `importSettings`: the storable entries are collected in an editor
        and applied together; other entries are skipped. */
    method ImportSettings(settings: map<string, AnyValue>)
      modifies this
      ensures prefs == old(prefs) + Imported(settings)
    {
      var edits: map<string, PrefValue> := map[];
      var pending := settings.Keys;
      while pending != {}
        invariant pending <= settings.Keys
        invariant forall k :: k in edits <==> k in settings && k !in pending && settings[k].Storable?
        invariant forall k :: k in edits ==> settings[k] == Storable(edits[k])
        decreases |pending|
      {
        var key :| key in pending;
        if settings[key].Storable? {
          edits := edits[key := settings[key].value];
        }
        pending := pending - {key};
      }
      assert edits == Imported(settings);
      prefs := prefs + edits;
    }
  }

  /** Export followed by import on the same manager leaves every getter as
      it was. */
  method ExportThenImport(manager: SettingsManager)
    modifies manager
    ensures Export(old(manager.prefs)).Some? ==> Read(manager.prefs) == Read(old(manager.prefs))
    ensures Export(old(manager.prefs)).None? ==> manager.prefs == old(manager.prefs)
  {
    var exported := Export(manager.prefs);
    if exported.Some? {
      ImportExportRoundTrip(manager.prefs);
      manager.ImportSettings(exported.value);
    }
  }
}
