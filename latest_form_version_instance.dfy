/** `LatestFormVersionInstance`: one configuration of the later variant, which
    copies fields of a source form into a destination form that must sit in
    exactly one event. */
module LatestInstance {
  import opened Project
  import opened Settings
  import opened FieldList
  import opened FieldChecks

  /** `checkFormsFields` of this variant: the fields missing from the form end
      the check; a singleton form must then be in exactly one event. */
  function Check(p: Metadata, form: FormName, fields: seq<FieldName>, singleton: bool): Verdict {
    var arrayDiff := MissingFields(fields, p.FieldsOn(form));
    if arrayDiff != [] then Verdict(false, FieldsNotOnForm(form, arrayDiff))
    else if singleton && |p.EventsWithForm(form)| != 1 then Verdict(false, NotInOneEvent(form))
    else Verdict(true, NoMessage)
  }

  /** A check passes exactly when every field is on the form and, for a
      singleton form, exactly one event holds the form; a passing check
      carries no message, a failing one lists exactly the missing fields or
      names the form that is not in one event. */
  lemma CheckRules(p: Metadata, form: FormName, fields: seq<FieldName>, singleton: bool)
    ensures Check(p, form, fields, singleton).valid <==>
              && (forall f :: f in fields ==> f in p.FieldsOn(form))
              && (singleton ==> |p.EventsWithForm(form)| == 1)
    ensures Check(p, form, fields, singleton).valid <==> Check(p, form, fields, singleton).message == NoMessage
    ensures (exists f :: f in fields && f !in p.FieldsOn(form)) ==>
              Check(p, form, fields, singleton).message == FieldsNotOnForm(form, MissingFields(fields, p.FieldsOn(form)))
    ensures (forall f :: f in fields ==> f in p.FieldsOn(form)) && singleton && |p.EventsWithForm(form)| != 1 ==>
              Check(p, form, fields, singleton).message == NotInOneEvent(form)
  {
    var arrayDiff := MissingFields(fields, p.FieldsOn(form));
    if arrayDiff != [] {
      assert arrayDiff[0] in fields;
    }
  }

  /** `validateConfig` of this variant, as a function of the metadata and the
      parsed configuration. */
  function Validate(p: Metadata, sourceForm: FormName, sourceFields: seq<FieldName>,
                    destinationForm: FormName, destinationFields: seq<FieldName>): Verdict
  {
    var source := Check(p, sourceForm, sourceFields, false);
    if !source.valid then source
    else
      var destination := Check(p, destinationForm, destinationFields, true);
      if !destination.valid then destination
      else
        var counted := if |sourceFields| != |destinationFields|
                       then Verdict(false, CountMismatch(|sourceFields|, |destinationFields|))
                       else destination;
        if counted.message != NoMessage then counted
        else
          var nonMatchingFields := Mismatches(p, sourceFields, destinationFields, |sourceFields|);
          if nonMatchingFields == [] then counted
          else Verdict(false, TypesDoNotMatch(nonMatchingFields))
  }

  /** What `validateConfig` decides, case by case. */
  lemma ValidateRules(p: Metadata, sourceForm: FormName, sourceFields: seq<FieldName>,
                      destinationForm: FormName, destinationFields: seq<FieldName>)
    // the source is checked without, the destination with the singleton rule;
    // an invalid source check is the answer and the destination is not examined
    ensures !Check(p, sourceForm, sourceFields, false).valid ==>
              Validate(p, sourceForm, sourceFields, destinationForm, destinationFields) == Check(p, sourceForm, sourceFields, false)
    ensures Check(p, sourceForm, sourceFields, false).valid && !Check(p, destinationForm, destinationFields, true).valid ==>
              Validate(p, sourceForm, sourceFields, destinationForm, destinationFields) == Check(p, destinationForm, destinationFields, true)
    // unequal counts: invalid, both counts reported, no type comparison
    ensures Check(p, sourceForm, sourceFields, false).valid && Check(p, destinationForm, destinationFields, true).valid &&
            |sourceFields| != |destinationFields| ==>
              Validate(p, sourceForm, sourceFields, destinationForm, destinationFields) ==
                Verdict(false, CountMismatch(|sourceFields|, |destinationFields|))
    // equal counts: every mismatching pair is reported at once
    ensures Check(p, sourceForm, sourceFields, false).valid && Check(p, destinationForm, destinationFields, true).valid &&
            |sourceFields| == |destinationFields| && !Validate(p, sourceForm, sourceFields, destinationForm, destinationFields).valid ==>
              Validate(p, sourceForm, sourceFields, destinationForm, destinationFields).message ==
                TypesDoNotMatch(Mismatches(p, sourceFields, destinationFields, |sourceFields|))
    // in this variant a configuration is valid exactly when no message is set
    ensures Validate(p, sourceForm, sourceFields, destinationForm, destinationFields).valid <==>
              Validate(p, sourceForm, sourceFields, destinationForm, destinationFields).message == NoMessage
  {
    CheckRules(p, sourceForm, sourceFields, false);
    CheckRules(p, destinationForm, destinationFields, true);
  }

  /** A configuration is valid exactly when it meets every rule: all fields
      on their forms, the destination form in exactly one event, equally many
      fields on both sides, and each pair of the same type and validation. */
  lemma ValidIffRulesHold(p: Metadata, sourceForm: FormName, sourceFields: seq<FieldName>,
                          destinationForm: FormName, destinationFields: seq<FieldName>)
    ensures Validate(p, sourceForm, sourceFields, destinationForm, destinationFields).valid <==>
              && (forall f :: f in sourceFields ==> f in p.FieldsOn(sourceForm))
              && (forall f :: f in destinationFields ==> f in p.FieldsOn(destinationForm))
              && |p.EventsWithForm(destinationForm)| == 1
              && |sourceFields| == |destinationFields|
              && (forall i :: 0 <= i < |sourceFields| ==> p.TypeOf(sourceFields[i]) == p.TypeOf(destinationFields[i]))
  {
    CheckRules(p, sourceForm, sourceFields, false);
    CheckRules(p, destinationForm, destinationFields, true);
    if |sourceFields| == |destinationFields| {
      MismatchesEmpty(p, sourceFields, destinationFields, |sourceFields|);
    }
  }

  /** What `validateConfig` answers for the object built from one
      configuration instance. */
  function InstanceVerdict(p: Metadata, instance: Instance): Verdict {
    Validate(p, TextOf(Get(instance, "source_form")), Split(TextOf(Get(instance, "source_fields"))),
             TextOf(Get(instance, "destination_form")), Split(TextOf(Get(instance, "destination_fields"))))
  }

  /** The events, among `visited`, whose form list contains the form. */
  function EventsAmong(p: Metadata, visited: set<EventId>, form: FormName): set<EventId> {
    set e | e in visited && e in p.eventsForms && form in p.eventsForms[e]
  }

  class LatestFormVersionInstance {
    const sourceForm: FormName
    const sourceFields: seq<FieldName>
    const destinationForm: FormName
    const destinationFields: seq<FieldName>
    const overwrite: Value
    const proj: Metadata

    /** Reads one configuration instance; the two field lists are parsed. */
    constructor (instance: Instance, proj: Metadata)
      ensures sourceForm == TextOf(Get(instance, "source_form"))
      ensures sourceFields == Split(TextOf(Get(instance, "source_fields")))
      ensures destinationForm == TextOf(Get(instance, "destination_form"))
      ensures destinationFields == Split(TextOf(Get(instance, "destination_fields")))
      ensures overwrite == Get(instance, "overwrite")
      ensures this.proj == proj
    {
      var sources := ParseConfigList(TextOf(Get(instance, "source_fields")));
      var destinations := ParseConfigList(TextOf(Get(instance, "destination_fields")));
      sourceForm := TextOf(Get(instance, "source_form"));
      sourceFields := sources;
      destinationForm := TextOf(Get(instance, "destination_form"));
      destinationFields := destinations;
      overwrite := Get(instance, "overwrite");
      this.proj := proj;
    }

    /** `checkFormsFields`: the field check, then, for a singleton form, a
        walk over every event that counts those listing the form. */
    method CheckFormsFields(form: FormName, fields: seq<FieldName>, singleton: bool)
      returns (valid: bool, message: Message)
      ensures Verdict(valid, message) == Check(proj, form, fields, singleton)
    {
      valid, message := true, NoMessage;

      var arrayDiff := MissingFields(fields, proj.FieldsOn(form));
      if arrayDiff != [] {
        return false, FieldsNotOnForm(form, arrayDiff);
      }

      if singleton {
        var includedInNumEvents := 0;
        var remaining := proj.eventsForms.Keys;
        ghost var visited: set<EventId> := {};
        while remaining != {}
          invariant remaining + visited == proj.eventsForms.Keys && remaining !! visited
          invariant includedInNumEvents == |EventsAmong(proj, visited, form)|
          decreases |remaining|
        {
          var eventId :| eventId in remaining;
          ghost var before := EventsAmong(proj, visited, form);
          if form in proj.eventsForms[eventId] {
            includedInNumEvents := includedInNumEvents + 1;
            assert EventsAmong(proj, visited + {eventId}, form) == before + {eventId};
          } else {
            assert EventsAmong(proj, visited + {eventId}, form) == before;
          }
          remaining := remaining - {eventId};
          visited := visited + {eventId};
        }
        assert EventsAmong(proj, visited, form) == proj.EventsWithForm(form);
        if includedInNumEvents != 1 {
          return false, NotInOneEvent(form);
        }
      }
    }

    /** `validateConfig`: the source is checked without and the destination
        with the singleton rule, then the counts and the paired types. */
    method ValidateConfig() returns (valid: bool, message: Message)
      ensures Verdict(valid, message) == Validate(proj, sourceForm, sourceFields, destinationForm, destinationFields)
    {
      valid, message := CheckFormsFields(sourceForm, sourceFields, false);
      if !valid {
        return;
      }

      valid, message := CheckFormsFields(destinationForm, destinationFields, true);
      if valid {
        if |sourceFields| != |destinationFields| {
          valid := false;
          message := CountMismatch(|sourceFields|, |destinationFields|);
        }
        if message == NoMessage {
          var nonMatchingFields := CollectMismatches(proj, sourceFields, destinationFields);
          if nonMatchingFields != [] {
            valid := false;
            message := TypesDoNotMatch(nonMatchingFields);
          }
        }
      }
    }
  }
}
