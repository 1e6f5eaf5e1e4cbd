/** `SurveyUpdatesInstance`: one configuration that copies fields of a
    repeating form into fields of a non-repeating form whenever the repeating
    form is saved. */
module SurveyUpdates {
  import opened Project
  import opened Settings
  import opened FieldList
  import opened FieldChecks

  /** Where the data store keeps one instance of a repeating form for a
      record: `["repeat_instances"][event][key][instance]`, with key "" when
      the whole event repeats and the instrument's name otherwise. */
  datatype RowKey = RowKey(event: EventId, repeatKey: string, instance: nat)

  /** One `saveData` call: `$saveData[$record][$event] = $new_data`, written
      with the 'overwrite' policy. A null value is written as null. */
  datatype SaveRequest = SaveRequest(record: string, event: EventId, values: map<FieldName, Option<string>>)

  class SurveyUpdatesInstance {
    const repeatEventId: EventId
    const repeatForm: FormName
    const repeatFields: seq<FieldName>
    const destinationEventId: EventId
    const destinationForm: FormName
    const destinationFields: seq<FieldName>
    const overwrite: Value
    const proj: Metadata

    /** Reads one configuration instance; the two field lists are parsed. */
    constructor (instance: Instance, proj: Metadata)
      ensures repeatEventId == TextOf(Get(instance, "repeat_event_id"))
      ensures repeatForm == TextOf(Get(instance, "repeat_form"))
      ensures repeatFields == Split(TextOf(Get(instance, "repeat_fields")))
      ensures destinationEventId == TextOf(Get(instance, "destination_event_id"))
      ensures destinationForm == TextOf(Get(instance, "destination_form"))
      ensures destinationFields == Split(TextOf(Get(instance, "destination_fields")))
      ensures overwrite == Get(instance, "overwrite")
      ensures this.proj == proj
    {
      var sources := ParseConfigList(TextOf(Get(instance, "repeat_fields")));
      var destinations := ParseConfigList(TextOf(Get(instance, "destination_fields")));
      repeatEventId := TextOf(Get(instance, "repeat_event_id"));
      repeatForm := TextOf(Get(instance, "repeat_form"));
      repeatFields := sources;
      destinationEventId := TextOf(Get(instance, "destination_event_id"));
      destinationForm := TextOf(Get(instance, "destination_form"));
      destinationFields := destinations;
      overwrite := Get(instance, "overwrite");
      this.proj := proj;
    }

    /** `checkFormsFields`: the form must be in the event and every field on
        the form; both failures end the check. The repeating status is then
        compared with `repeat`, and a mismatch only sets a message: the
        result stays valid. */
    function CheckFormsFields(eventId: EventId, form: FormName, fields: seq<FieldName>, repeat: bool): (r: Verdict)
      ensures r.valid <==> proj.FormInEvent(eventId, form) && forall f :: f in fields ==> f in proj.FieldsOn(form)
      ensures !proj.FormInEvent(eventId, form) ==> r.message == FormNotInEvent(form, eventId)
      ensures proj.FormInEvent(eventId, form) && !r.valid ==>
                r.message == FieldsNotOnForm(form, MissingFields(fields, proj.FieldsOn(form)))
      ensures r.valid ==> (r.message == NoMessage <==> proj.IsRepeating(eventId, form) == repeat)
      ensures r.valid && proj.IsRepeating(eventId, form) && !repeat ==> r.message == RepeatingButShouldNotBe(form)
      ensures r.valid && !proj.IsRepeating(eventId, form) && repeat ==> r.message == NotRepeatingButShouldBe(form)
    {
      if !proj.FormInEvent(eventId, form) then
        Verdict(false, FormNotInEvent(form, eventId))
      else
        var arrayDiff := MissingFields(fields, proj.FieldsOn(form));
        if arrayDiff != [] then
          assert arrayDiff[0] in fields;
          Verdict(false, FieldsNotOnForm(form, arrayDiff))
        else if proj.IsRepeating(eventId, form) then
          Verdict(true, if !repeat then RepeatingButShouldNotBe(form) else NoMessage)
        else
          Verdict(true, if repeat then NotRepeatingButShouldBe(form) else NoMessage)
    }

    /** The check of the repeating (source) form: it must repeat. */
    function SourceCheck(): Verdict {
      CheckFormsFields(repeatEventId, repeatForm, repeatFields, true)
    }

    /** The check of the destination form: it must not repeat. */
    function DestinationCheck(): Verdict {
      CheckFormsFields(destinationEventId, destinationForm, destinationFields, false)
    }

    /** `validateConfig`. An invalid source check is returned at once and the
        destination is not looked at. After a valid destination check the
        counts must agree, and the types are compared only while no message
        has been set; every mismatching pair is reported together. A
        repeating-status message on the destination therefore skips the type
        comparison and leaves the configuration valid. */
    method ValidateConfig() returns (valid: bool, message: Message)
      ensures !SourceCheck().valid ==> !valid && message == SourceCheck().message
      ensures SourceCheck().valid && !DestinationCheck().valid ==> !valid && message == DestinationCheck().message
      ensures SourceCheck().valid && DestinationCheck().valid && |repeatFields| != |destinationFields| ==>
                !valid && message == CountMismatch(|repeatFields|, |destinationFields|)
      ensures valid <==>
                && SourceCheck().valid && DestinationCheck().valid
                && |repeatFields| == |destinationFields|
                && (DestinationCheck().message != NoMessage ||
                    forall i :: 0 <= i < |repeatFields| ==> proj.TypeOf(repeatFields[i]) == proj.TypeOf(destinationFields[i]))
      ensures valid ==> message == DestinationCheck().message
      ensures SourceCheck().valid && DestinationCheck().valid && DestinationCheck().message == NoMessage &&
              |repeatFields| == |destinationFields| && !valid ==>
                message == TypesDoNotMatch(Mismatches(proj, repeatFields, destinationFields, |repeatFields|))
    {
      var check := CheckFormsFields(repeatEventId, repeatForm, repeatFields, true);
      valid, message := check.valid, check.message;
      if !valid {
        return;
      }

      check := CheckFormsFields(destinationEventId, destinationForm, destinationFields, false);
      valid, message := check.valid, check.message;
      if valid {
        if |repeatFields| != |destinationFields| {
          valid := false;
          message := CountMismatch(|repeatFields|, |destinationFields|);
        }
        if message == NoMessage {
          var nonMatchingFields := CollectMismatches(proj, repeatFields, destinationFields);
          MismatchesEmpty(proj, repeatFields, destinationFields, |repeatFields|);
          if nonMatchingFields != [] {
            valid := false;
            message := TypesDoNotMatch(nonMatchingFields);
          }
        }
      }
    }

    // -------------------------------------------------------------------------
    // transferData: which source values reach which destination fields.

    /** The source instance's values as `getData` returns them for the record:
        looked up under "" when the repeating event repeats as a whole and
        under the instrument otherwise; a missing instance has no values. */
    function SourceRow(repeatInstances: map<RowKey, map<FieldName, string>>, instrument: FormName, repeatInstance: nat)
      : map<FieldName, string>
    {
      var key := RowKey(repeatEventId, if proj.IsRepeatingEvent(repeatEventId) then "" else instrument, repeatInstance);
      if key in repeatInstances then repeatInstances[key] else map[]
    }

    /** `$repeat_data[$this->repeat_fields[$i]]`: null when the row lacks the field. */
    function ValueAt(row: map<FieldName, string>, i: nat): Option<string>
      requires i < |repeatFields|
    {
      if repeatFields[i] in row then Some(row[repeatFields[i]]) else None
    }

    /** The value at position `i` is written: it is not the empty string, or
        overwrite is set. A null value is not the empty string. */
    predicate Keep(row: map<FieldName, string>, i: nat)
      requires i < |repeatFields|
    {
      ValueAt(row, i) != Some("") || Truthy(overwrite)
    }

    /** `$this->destination_fields[$i]`; past the end PHP reads null, which as
        an array key is "". */
    function DestinationKey(i: nat): FieldName {
      if i < |destinationFields| then destinationFields[i] else ""
    }

    /** `$new_data` after the first `n` positions. */
    function WriteMap(row: map<FieldName, string>, n: nat): map<FieldName, Option<string>>
      requires n <= |repeatFields|
    {
      if n == 0 then map[]
      else if Keep(row, n - 1) then WriteMap(row, n - 1)[DestinationKey(n - 1) := ValueAt(row, n - 1)]
      else WriteMap(row, n - 1)
    }

    /** `transferData`: builds the write map position by position and saves it
        for the record under the destination event, in one `saveData` call
        (passed in as `saveData`, which returns the store's error list). The
        transfer is saved exactly when that list is empty. */
    method TransferData(record: string, instrument: FormName, repeatInstance: nat,
                        repeatInstances: map<RowKey, map<FieldName, string>>,
                        saveData: SaveRequest -> seq<string>)
      returns (saved: bool, errors: seq<string>)
      ensures var request := SaveRequest(record, destinationEventId,
                                         WriteMap(SourceRow(repeatInstances, instrument, repeatInstance), |repeatFields|));
              && (saved <==> saveData(request) == [])
              && errors == saveData(request)
    {
      var repeatData := SourceRow(repeatInstances, instrument, repeatInstance);
      var newData: map<FieldName, Option<string>> := map[];
      for ncnt := 0 to |repeatFields|
        invariant newData == WriteMap(repeatData, ncnt)
      {
        var value := if repeatFields[ncnt] in repeatData then Some(repeatData[repeatFields[ncnt]]) else None;
        if value != Some("") || Truthy(overwrite) {
          newData := newData[DestinationKey(ncnt) := value];
        }
      }
      var result := saveData(SaveRequest(record, destinationEventId, newData));
      saved := result == [];
      errors := result;
    }

    /** A destination field is written exactly when some position pairing
        with it keeps its value; no other key is written. */
    lemma {:induction false} WriteMapKeys(row: map<FieldName, string>, n: nat)
      requires n <= |repeatFields|
      ensures forall k :: k in WriteMap(row, n) <==>
                exists i :: 0 <= i < n && Keep(row, i) && DestinationKey(i) == k
    {
      if n > 0 {
        WriteMapKeys(row, n - 1);
      }
    }

    /** A kept value lands in its destination field unless a later kept
        position writes the same field (the last write wins). */
    lemma {:induction false} WriteMapValues(row: map<FieldName, string>, n: nat, i: nat)
      requires i < n <= |repeatFields|
      requires Keep(row, i)
      requires forall j :: i < j < n && DestinationKey(j) == DestinationKey(i) ==> !Keep(row, j)
      ensures DestinationKey(i) in WriteMap(row, n) && WriteMap(row, n)[DestinationKey(i)] == ValueAt(row, i)
    {
      if i < n - 1 {
        WriteMapValues(row, n - 1, i);
      }
    }

    /** With distinct, equally many destination fields: `destination_fields[i]`
        receives `value_i` exactly when `value_i` is not '' or overwrite is set,
        and skipped fields are not in the write at all. */
    lemma TransferRule(row: map<FieldName, string>, i: nat)
      requires |destinationFields| == |repeatFields|
      requires forall a, b :: 0 <= a < b < |destinationFields| ==> destinationFields[a] != destinationFields[b]
      requires i < |repeatFields|
      ensures destinationFields[i] in WriteMap(row, |repeatFields|) <==> ValueAt(row, i) != Some("") || Truthy(overwrite)
      ensures destinationFields[i] in WriteMap(row, |repeatFields|) ==>
                WriteMap(row, |repeatFields|)[destinationFields[i]] == ValueAt(row, i)
    {
      WriteMapKeys(row, |repeatFields|);
      if Keep(row, i) {
        WriteMapValues(row, |repeatFields|, i);
      }
    }
  }
}
