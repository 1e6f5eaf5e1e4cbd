/** `LatestFormVersion`, the external module itself: it turns the stored
    settings into configuration instances, validates them all, and on every
    record save runs the matching configurations, unless the page being
    submitted deletes a form. */
module LatestModule {
  import opened Project
  import opened Settings
  import opened FieldChecks
  import opened LatestInstance

  /** One entry of a setting's `sub_settings` list in the module's
      configuration; only its key is read. */
  datatype SubSetting = SubSetting(key: string)

  /** `getSettingConfig($key)`: the setting's type and its sub-settings. */
  datatype SettingConfig = SettingConfig(kind: string, subSettings: seq<SubSetting>)

  /** One line of `validateConfigs`' report: "Configuration Issues with #n"
      followed by the instance's message. */
  datatype ConfigIssue = ConfigIssue(ordinal: nat, message: Message)

  /** What the save hook does with one configuration instance. */
  datatype Step =
    | NotSelected                                   // other event or form, or a delete
    | SkippedInvalid(message: Message)              // invalid: logged, nothing transferred
    | Transfer(record: string, eventId: EventId, instrument: FormName)   // transferData is called

  /** The values stored under a setting key; a missing key has none. */
  function Values(settings: map<string, seq<Value>>, key: string): seq<Value> {
    if key in settings then settings[key] else []
  }

  /** The number of instances the settings describe: the longest value list
      among the keys. */
  function Width(keys: seq<string>, settings: map<string, seq<Value>>): nat {
    if keys == [] then 0
    else
      var w := Width(keys[..|keys| - 1], settings);
      var n := |Values(settings, keys[|keys| - 1])|;
      if w < n then n else w
  }

  /** Width is the maximum list length: no key has more values, and unless it
      is 0 some key has exactly that many. */
  lemma {:induction false} WidthIsLongest(keys: seq<string>, settings: map<string, seq<Value>>)
    ensures forall k :: k in keys ==> |Values(settings, k)| <= Width(keys, settings)
    ensures Width(keys, settings) > 0 ==>
              exists k :: k in keys && |Values(settings, k)| == Width(keys, settings)
  {
    if keys != [] {
      var init := keys[..|keys| - 1];
      WidthIsLongest(init, settings);
      assert keys == init + [keys[|keys| - 1]];
    }
  }

  /** Instance `i` of the transposed settings: each key that has an `i`-th
      value, mapped to it. */
  function Row(keys: seq<string>, settings: map<string, seq<Value>>, i: nat): map<string, Value> {
    map k | k in keys && i < |Values(settings, k)| :: Values(settings, k)[i]
  }

  /** Taking one more key into the transpose adds its `i`-th value, if any, to row `i`. */
  lemma RowStep(keys: seq<string>, key: string, settings: map<string, seq<Value>>, i: nat)
    ensures Row(keys + [key], settings, i) ==
              if i < |Values(settings, key)| then Row(keys, settings, i)[key := Values(settings, key)[i]]
              else Row(keys, settings, i)
  {
    var r := Row(keys + [key], settings, i);
    var q := if i < |Values(settings, key)| then Row(keys, settings, i)[key := Values(settings, key)[i]]
             else Row(keys, settings, i);
    forall k ensures k in r <==> k in q {
      assert k in keys + [key] <==> k in keys || k == key;
    }
    assert r.Keys == q.Keys;
  }

  /** A row past every key's list is empty. */
  lemma RowBeyondWidth(keys: seq<string>, settings: map<string, seq<Value>>, i: nat)
    requires Width(keys, settings) <= i
    ensures Row(keys, settings, i) == map[]
  {
    WidthIsLongest(keys, settings);
    assert Row(keys, settings, i).Keys == {};
  }

  /** The keys of a setting's sub-settings, in configured order. */
  function SubSettingKeys(config: SettingConfig): seq<string> {
    seq(|config.subSettings|, n requires 0 <= n < |config.subSettings| => config.subSettings[n].key)
  }

  /** The first loop of `parseSubsettingsFromSettings`: `$keys[] = $subSetting['key']`. */
  method CollectKeys(config: SettingConfig) returns (keys: seq<string>)
    ensures keys == SubSettingKeys(config)
  {
    keys := [];
    for n := 0 to |config.subSettings|
      invariant keys == SubSettingKeys(config)[..n]
    {
      keys := keys + [config.subSettings[n].key];
    }
  }

  /** The nested loops of `parseSubsettingsFromSettings`:
      `$subSettings[$i][$key] = $value` for every key and every value index. */
  method Transpose(keys: seq<string>, settings: map<string, seq<Value>>) returns (rows: seq<Instance>)
    ensures |rows| == Width(keys, settings)
    ensures forall i :: 0 <= i < |rows| ==> rows[i] == Row(keys, settings, i)
  {
    rows := [];
    for j := 0 to |keys|
      invariant |rows| == Width(keys[..j], settings)
      invariant forall i :: 0 <= i < |rows| ==> rows[i] == Row(keys[..j], settings, i)
    {
      assert keys[..j + 1] == keys[..j] + [keys[j]];
      rows := AddColumn(keys[..j], keys[j], settings, rows);
    }
    assert keys[..|keys|] == keys;
  }

  /** The inner loop for one key: its `i`-th value goes into row `i`; a row
      past the end is created. */
  method AddColumn(done: seq<string>, key: string, settings: map<string, seq<Value>>, rows0: seq<Instance>)
    returns (rows: seq<Instance>)
    requires |rows0| == Width(done, settings)
    requires forall i :: 0 <= i < |rows0| ==> rows0[i] == Row(done, settings, i)
    ensures |rows| == Width(done + [key], settings)
    ensures forall i :: 0 <= i < |rows| ==> rows[i] == Row(done + [key], settings, i)
  {
    var values := Values(settings, key);
    rows := rows0;
    for i := 0 to |values|
      invariant |rows| == if |rows0| < i then i else |rows0|
      invariant forall n :: 0 <= n < |rows| ==>
                  rows[n] == if n < i then Row(done, settings, n)[key := values[n]] else Row(done, settings, n)
    {
      if i < |rows| {
        rows := rows[i := rows[i][key := values[i]]];
      } else {
        RowBeyondWidth(done, settings, i);
        rows := rows + [map[key := values[i]]];
      }
    }
    assert (done + [key])[..|done|] == done;
    forall n | 0 <= n < |rows| ensures rows[n] == Row(done + [key], settings, n) {
      RowStep(done, key, settings, n);
    }
  }

  /** Does the save hook act on this instance: its `repeat_event_id` and
      `repeat_form` settings equal (PHP `==`) the saved event and instrument? */
  predicate Selected(instance: Instance, eventId: EventId, instrument: FormName) {
    LooseEquals(Get(instance, "repeat_event_id"), eventId) && LooseEquals(Get(instance, "repeat_form"), instrument)
  }

  /** `new LatestFormVersionInstance($this, $instance)` followed by
      `validateConfig()`. */
  method ValidateInstance(proj: Metadata, instance: Instance) returns (valid: bool, message: Message)
    ensures Verdict(valid, message) == InstanceVerdict(proj, instance)
  {
    var su := new LatestFormVersionInstance(instance, proj);
    valid, message := su.ValidateConfig();
  }

  /** The verdict `validateConfig` gives each instance, in order. */
  function Verdicts(proj: Metadata, instances: seq<Instance>): (r: seq<Verdict>)
    ensures |r| == |instances|
  {
    if instances == [] then []
    else Verdicts(proj, instances[..|instances| - 1]) + [InstanceVerdict(proj, instances[|instances| - 1])]
  }

  /** Position `i` of the list holds the verdict on instance `i`. */
  lemma {:induction false} VerdictAt(proj: Metadata, instances: seq<Instance>, i: nat)
    requires i < |instances|
    ensures Verdicts(proj, instances)[i] == InstanceVerdict(proj, instances[i])
  {
    if i < |instances| - 1 {
      VerdictAt(proj, instances[..|instances| - 1], i);
    }
  }

  /** The report `validateConfigs` builds from the verdicts: one issue, with
      the instance's 1-based position and its message, per invalid instance. */
  function Issues(verdicts: seq<Verdict>): seq<ConfigIssue> {
    if verdicts == [] then []
    else
      var n := |verdicts|;
      Issues(verdicts[..n - 1]) + (if verdicts[n - 1].valid then [] else [ConfigIssue(n, verdicts[n - 1].message)])
  }

  /** Every issue names an invalid instance by its 1-based position and
      carries that instance's message. */
  lemma {:induction false} IssuesAreInvalid(verdicts: seq<Verdict>)
    ensures forall issue :: issue in Issues(verdicts) ==>
              && 1 <= issue.ordinal <= |verdicts|
              && !verdicts[issue.ordinal - 1].valid
              && issue.message == verdicts[issue.ordinal - 1].message
  {
    if verdicts != [] {
      var n := |verdicts|;
      IssuesAreInvalid(verdicts[..n - 1]);
    }
  }

  /** The issues appear in the order of the instances. */
  lemma {:induction false} IssuesInOrder(verdicts: seq<Verdict>)
    ensures forall m, l :: 0 <= m < l < |Issues(verdicts)| ==> Issues(verdicts)[m].ordinal < Issues(verdicts)[l].ordinal
  {
    if verdicts != [] {
      var n := |verdicts|;
      IssuesInOrder(verdicts[..n - 1]);
      IssuesAreInvalid(verdicts[..n - 1]);
      var prev := Issues(verdicts[..n - 1]);
      assert forall m :: 0 <= m < |prev| ==> prev[m] in prev;
    }
  }

  /** Every invalid instance is reported. */
  lemma {:induction false} IssuesComplete(verdicts: seq<Verdict>)
    ensures forall i :: 0 <= i < |verdicts| && !verdicts[i].valid ==>
              ConfigIssue(i + 1, verdicts[i].message) in Issues(verdicts)
  {
    if verdicts != [] {
      var n := |verdicts|;
      IssuesComplete(verdicts[..n - 1]);
    }
  }

  /** The report is empty exactly when every instance is valid. */
  lemma {:induction false} IssuesEmpty(verdicts: seq<Verdict>)
    ensures Issues(verdicts) == [] <==> forall i :: 0 <= i < |verdicts| ==> verdicts[i].valid
  {
    if verdicts != [] {
      var n := |verdicts|;
      IssuesEmpty(verdicts[..n - 1]);
    }
  }

  /** `validateConfigs` reports nothing exactly when every instance is valid. */
  lemma NoIssuesIffAllValid(proj: Metadata, instances: seq<Instance>)
    ensures Issues(Verdicts(proj, instances)) == [] <==>
              forall i :: 0 <= i < |instances| ==> InstanceVerdict(proj, instances[i]).valid
  {
    IssuesEmpty(Verdicts(proj, instances));
    forall i | 0 <= i < |instances|
      ensures Verdicts(proj, instances)[i] == InstanceVerdict(proj, instances[i])
    {
      VerdictAt(proj, instances, i);
    }
  }

  /** What the save hook does with one instance, given its verdict, whether
      its event and form match the save, and the delete flag: data is
      transferred only for a selected, valid instance while no form is being
      deleted; a selected invalid instance is skipped with its message. */
  function StepFor(verdict: Verdict, selected: bool, deleteForm: bool,
                   record: string, eventId: EventId, instrument: FormName): (s: Step)
    ensures s.Transfer? <==> selected && !deleteForm && verdict.valid
    ensures s.NotSelected? <==> !selected || deleteForm
    ensures s.SkippedInvalid? ==> s.message == verdict.message
    ensures s.Transfer? ==> s == Transfer(record, eventId, instrument)
  {
    if selected && !deleteForm then
      if verdict.valid then Transfer(record, eventId, instrument) else SkippedInvalid(verdict.message)
    else NotSelected
  }

  class LatestFormVersion {
    /** `$this->deleteAction === 'deleteForm'`; the property starts null and
        'deleteForm' is the only value it is ever given. */
    var deleteForm: bool

    constructor ()
      ensures !deleteForm
    {
      deleteForm := false;
    }

    /** `parseSubsettingsFromSettings`: false unless the setting is of type
        sub_settings; otherwise the settings, stored as one list of values per
        key, are transposed into one map per instance: instance `i` maps key
        `k` to the `i`-th value stored under `k`, holds nothing else, and is
        never empty. */
    method ParseSubsettingsFromSettings(config: SettingConfig, settings: map<string, seq<Value>>)
      returns (subSettings: Option<seq<Instance>>)
      ensures subSettings.None? <==> config.kind != "sub_settings"
      ensures subSettings.Some? ==>
                var keys := SubSettingKeys(config);
                var rows := subSettings.value;
                && |rows| == Width(keys, settings)
                && (forall i, k :: 0 <= i < |rows| ==>
                      (k in rows[i] <==> k in keys && i < |Values(settings, k)|))
                && (forall i, k :: 0 <= i < |rows| && k in rows[i] ==> rows[i][k] == Values(settings, k)[i])
                && (forall i :: 0 <= i < |rows| ==> rows[i] != map[])
    {
      if config.kind != "sub_settings" {
        return None;
      }
      var keys := CollectKeys(config);
      var rows := Transpose(keys, settings);
      WidthIsLongest(keys, settings);
      forall i | 0 <= i < |rows| ensures rows[i] != map[] {
        var k :| k in keys && |Values(settings, k)| == Width(keys, settings);
        assert k in rows[i];
      }
      subSettings := Some(rows);
    }

    /** `validateConfigs`: constructs and validates every instance in order.
        The report is the one `Issues` describes, and the result is true
        exactly when nothing was reported, that is (`IssuesEmpty`) when every
        instance is valid. */
    method ValidateConfigs(proj: Metadata, instances: seq<Instance>)
      returns (result: bool, messages: seq<ConfigIssue>)
      ensures messages == Issues(Verdicts(proj, instances))
      ensures result <==> messages == []
    {
      ghost var seen: seq<Verdict> := [];
      result := true;
      messages := [];
      for i := 0 to |instances|
        invariant seen == Verdicts(proj, instances[..i])
        invariant messages == Issues(seen)
        invariant result <==> messages == []
      {
        var valid, message := ValidateInstance(proj, instances[i]);
        assert instances[..i + 1][..i] == instances[..i];
        assert (seen + [Verdict(valid, message)])[..i] == seen;
        seen := seen + [Verdict(valid, message)];
        if !valid {
          result := false;
          messages := messages + [ConfigIssue(i + 1, message)];
        }
      }
      assert instances[..|instances|] == instances;
    }

    /** `redcap_every_page_before_render`: a form-deletion submission sets the
        delete flag; nothing clears it. */
    method RedcapEveryPageBeforeRender(post: map<string, string>)
      modifies this
      ensures deleteForm <==>
                old(deleteForm) || ("submit-action" in post && post["submit-action"] == "submit-btn-deleteform")
    {
      if "submit-action" in post && post["submit-action"] == "submit-btn-deleteform" {
        deleteForm := true;
      }
    }

    /** `redcap_save_record`: for each instance, in order, act only when it is
        selected by event and instrument and no form is being deleted; then
        validate it, and call transferData only when it is valid. What happens
        to one instance depends on that instance alone, so an invalid instance
        does not stop the ones after it. */
    method RedcapSaveRecord(proj: Metadata, record: string, instrument: FormName, eventId: EventId,
                            instances: seq<Instance>)
      returns (steps: seq<Step>)
      ensures |steps| == |instances|
      ensures forall i :: 0 <= i < |instances| ==>
                steps[i] == StepFor(InstanceVerdict(proj, instances[i]), Selected(instances[i], eventId, instrument),
                                    deleteForm, record, eventId, instrument)
    {
      steps := [];
      for i := 0 to |instances|
        invariant |steps| == i
        invariant forall j :: 0 <= j < i ==>
                    steps[j] == StepFor(InstanceVerdict(proj, instances[j]), Selected(instances[j], eventId, instrument),
                                        deleteForm, record, eventId, instrument)
      {
        var step := SaveInstance(proj, record, instrument, eventId, instances[i]);
        steps := steps + [step];
      }
    }

    /** The body of the save hook's loop for one instance. */
    method SaveInstance(proj: Metadata, record: string, instrument: FormName, eventId: EventId, instance: Instance)
      returns (step: Step)
      ensures step == StepFor(InstanceVerdict(proj, instance), Selected(instance, eventId, instrument),
                              deleteForm, record, eventId, instrument)
    {
      if Selected(instance, eventId, instrument) && !deleteForm {
        var valid, messages := ValidateInstance(proj, instance);
        if valid {
          step := Transfer(record, eventId, instrument);
        } else {
          step := SkippedInvalid(messages);
        }
      } else {
        step := NotSelected;
      }
    }
  }
}
