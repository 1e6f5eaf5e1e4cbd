/** The project metadata that the host platform exposes as the global `$Proj`
    object, reduced to the four tables the validators read. The core never
    changes it, so it is a value. */
module Project {

  type FormName = string
  type FieldName = string
  type EventId = string

  datatype Option<+T> = None | Some(value: T)

  /** `element_type` and `element_validation_type` of one data-dictionary
      field; a field without validation has `None` (PHP null). */
  datatype FieldType = FieldType(element: string, validation: Option<string>)

  /** One entry of `RepeatingFormsEvents`: the whole event repeats ('WHOLE'),
      or only the listed forms repeat inside it. */
  datatype Repeating = Whole | RepeatingForms(forms: set<FormName>)

  datatype Metadata = Metadata(
    forms: map<FormName, set<FieldName>>,        // $Proj->forms[form]['fields'] keys
    eventsForms: map<EventId, set<FormName>>,    // $Proj->eventsForms
    fieldTypes: map<FieldName, FieldType>,       // $Proj->metadata
    repeating: map<EventId, Repeating>)          // $Proj->RepeatingFormsEvents
  {
    /** The fields of a form; a form the project does not have has none. */
    function FieldsOn(form: FormName): set<FieldName> {
      if form in forms then forms[form] else {}
    }

    /** `in_array($form, $Proj->eventsForms[$event_id])`; an unknown event holds no form. */
    predicate FormInEvent(event: EventId, form: FormName) {
      event in eventsForms && form in eventsForms[event]
    }

    /** The form repeats in the event: the event repeats as a whole, or the form
        is one of the event's repeating forms. An event without an entry does
        not repeat. */
    predicate IsRepeating(event: EventId, form: FormName) {
      event in repeating && (repeating[event].Whole? || form in repeating[event].forms)
    }

    /** `$Proj->isRepeatingEvent($event_id)`. */
    predicate IsRepeatingEvent(event: EventId) {
      event in repeating && repeating[event].Whole?
    }

    /** The type of a field; `None` for a name the data dictionary lacks
        (PHP reads null for both of its attributes). */
    function TypeOf(field: FieldName): Option<FieldType> {
      if field in fieldTypes then Some(fieldTypes[field]) else None
    }

    /** The events whose form list contains the form. */
    function EventsWithForm(form: FormName): (r: set<EventId>)
      ensures forall e :: e in r <==> FormInEvent(e, form)
    {
      set e | e in eventsForms && form in eventsForms[e]
    }
  }
}
