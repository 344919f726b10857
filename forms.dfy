/** The two form submit handlers (ParamSetForm.handleSubmit in
    src/components/ParamSetList.tsx and VariableForm.handleSubmit in
    src/components/VariableList.tsx): ordered required-field checks, then the record
    handed to the store. The error setters of the UI become a `Rejected` value; the
    clock and the id generator are parameters. */
module Forms {
  import opened Types
  import opened Lists
  import opened Storage

  /** The form fields that carry a required check. */
  datatype Field = NameField | FromField | ToField | JsonPathField | ValueField

  /** The first failing check with the text shown under its field, or the record to save. */
  datatype Submission<+T> = Rejected(field: Field, message: string) | Accepted(record: T)

  /** The text each required check shows under its field. */
  function RequiredText(field: Field): string {
    match field
    case NameField => "Name is required"
    case FromField => "Source path is required"
    case ToField => "Target path is required"
    case JsonPathField => "JSON path is required"
    case ValueField => "Value is required"
  }

  // ----- parameter-set form -----

  /** What the parameter-set form submits; `jsonPath` is absent on the copy form. */
  datatype ParamSetValues = ParamSetValues(
    name: string,
    from: string,
    to: string,
    skipExist: bool,
    jsonPath: Option<string>)

  /** The checks of the parameter-set form, in the order they run. */
  function ParamSetChecks(command: Command): (checks: seq<Field>)
    ensures |checks| == (if command == ModifyJson then 4 else 3)
    ensures checks[0] == NameField && checks[1] == FromField && checks[2] == ToField
    ensures command == ModifyJson ==> checks[3] == JsonPathField
  {
    [NameField, FromField, ToField] + (if command == ModifyJson then [JsonPathField] else [])
  }

  /** Whether a field passes its required check: a truthy (non-empty) value.
      `ValueField` belongs to the variable form and never occurs in `ParamSetChecks`. */
  predicate ParamSetFieldFilled(values: ParamSetValues, field: Field) {
    match field
    case NameField => values.name != ""
    case FromField => values.from != ""
    case ToField => values.to != ""
    case JsonPathField => Truthy(values.jsonPath)
    case ValueField => true
  }

  /** `field` is the first check in `checks` that fails. */
  ghost predicate FirstFailingParamSetCheck(values: ParamSetValues, checks: seq<Field>, field: Field) {
    exists i :: 0 <= i < |checks| && checks[i] == field && !ParamSetFieldFilled(values, field) &&
      forall j :: 0 <= j < i ==> ParamSetFieldFilled(values, checks[j])
  }

  /** A stored parameter set as the form produces it: the three text fields are filled,
      skipExist is recorded, and a non-empty jsonPath is present exactly for modify-json. */
  predicate ValidParamSet(p: ParamSet) {
    && p.name != "" && p.params.from != "" && p.params.to != ""
    && p.params.skipExist.Some?
    && (p.params.jsonPath.Some? <==> p.command == ModifyJson)
    && (p.command == ModifyJson ==> Truthy(p.params.jsonPath))
  }

  /** handleSubmit of the parameter-set form for `command`, editing `existing` when
      given. `now` stands for Date.now() and `freshId` for generateId(). */
  function SubmitParamSet(command: Command, existing: Option<ParamSet>, values: ParamSetValues,
                          now: int, freshId: string): (r: Submission<ParamSet>)
    ensures r.Accepted? <==> forall f :: f in ParamSetChecks(command) ==> ParamSetFieldFilled(values, f)
    ensures r.Rejected? ==> FirstFailingParamSetCheck(values, ParamSetChecks(command), r.field)
    ensures r.Rejected? ==> r.message == RequiredText(r.field)
    ensures r.Accepted? ==> ValidParamSet(r.record) && r.record.command == command
    ensures r.Accepted? ==>
      && r.record.name == values.name && r.record.params.from == values.from
      && r.record.params.to == values.to && r.record.params.skipExist == Some(values.skipExist)
    ensures r.Accepted? && command == ModifyJson ==> r.record.params.jsonPath == values.jsonPath
    // editing keeps the identity, creating takes the fresh one; both stamp `now`
    ensures r.Accepted? && existing.Some? && existing.value.id != "" ==> r.record.id == existing.value.id
    ensures r.Accepted? && existing.Some? && existing.value.createdAt != 0 ==>
      r.record.createdAt == existing.value.createdAt
    ensures r.Accepted? && existing.None? ==> r.record.id == freshId && r.record.createdAt == now
    ensures r.Accepted? ==> r.record.updatedAt == now
  {
    var checks := ParamSetChecks(command);
    if values.name == "" then
      assert checks[0] in checks;
      Rejected(NameField, RequiredText(NameField))
    else if values.from == "" then
      assert checks[1] in checks;
      Rejected(FromField, RequiredText(FromField))
    else if values.to == "" then
      assert checks[2] in checks;
      Rejected(ToField, RequiredText(ToField))
    else if command == ModifyJson && !Truthy(values.jsonPath) then
      assert checks[3] in checks;
      Rejected(JsonPathField, RequiredText(JsonPathField))
    else
      var id := if existing.Some? && existing.value.id != "" then existing.value.id else freshId;
      var createdAt := if existing.Some? && existing.value.createdAt != 0 then existing.value.createdAt else now;
      var params := Params(values.from, values.to, Some(values.skipExist),
                           if command == ModifyJson then values.jsonPath else None);
      Accepted(ParamSet(id, values.name, command, params, createdAt, now))
  }

  /** The copy form never asks for a JSON path and never records one. */
  lemma CopyFormIgnoresJsonPath(existing: Option<ParamSet>, values: ParamSetValues, jsonPath: Option<string>,
                                now: int, freshId: string)
    ensures SubmitParamSet(Copy, existing, values, now, freshId)
            == SubmitParamSet(Copy, existing, values.(jsonPath := jsonPath), now, freshId)
    ensures SubmitParamSet(Copy, existing, values, now, freshId).Accepted? ==>
            SubmitParamSet(Copy, existing, values, now, freshId).record.params.jsonPath == None
  {
  }

  /** When everything is empty only the name error is reported. */
  lemma NameReportedFirst(command: Command, existing: Option<ParamSet>, values: ParamSetValues,
                          now: int, freshId: string)
    requires values.name == ""
    ensures SubmitParamSet(command, existing, values, now, freshId) == Rejected(NameField, "Name is required")
  {
  }

  /** Every stored parameter set and variable is one the forms could have produced, and
      the store's keys are unique: ids among parameter sets, names among variables. */
  ghost predicate ValidDocument(d: StorageData) {
    && (forall p :: p in d.paramSets ==> ValidParamSet(p))
    && (forall v :: v in d.variables ==> ValidVariable(v))
    && UniqueKeys(d.paramSets, IdOf)
    && UniqueKeys(d.variables, NameOf)
  }

  /** Saving an accepted parameter set keeps the document valid. */
  lemma SaveAcceptedParamSetKeepsValid(d: StorageData, r: Submission<ParamSet>)
    requires ValidDocument(d) && r.Accepted? && ValidParamSet(r.record)
    ensures ValidDocument(d.(paramSets := Upsert(d.paramSets, IdOf, r.record)))
  {
    var s := Upsert(d.paramSets, IdOf, r.record);
    forall p | p in s ensures ValidParamSet(p) {
      var j :| 0 <= j < |s| && s[j] == p;
      assert s[j] == r.record || s[j] in d.paramSets;
    }
    UpsertKeepsKeysUnique(d.paramSets, IdOf, r.record);
  }

  /** Editing a stored parameter set (ids unique, id non-empty) overwrites it where it
      stands: same length, same position, every other entry unchanged. */
  lemma EditReplacesInPlace(d: StorageData, i: nat, values: ParamSetValues, now: int, freshId: string)
    requires i < |d.paramSets| && UniqueKeys(d.paramSets, IdOf) && d.paramSets[i].id != ""
    requires SubmitParamSet(d.paramSets[i].command, Some(d.paramSets[i]), values, now, freshId).Accepted?
    ensures var p := SubmitParamSet(d.paramSets[i].command, Some(d.paramSets[i]), values, now, freshId).record;
      var s := Upsert(d.paramSets, IdOf, p);
      |s| == |d.paramSets| && s[i] == p &&
      forall j :: 0 <= j < |s| && j != i ==> s[j] == d.paramSets[j]
  {
    var p := SubmitParamSet(d.paramSets[i].command, Some(d.paramSets[i]), values, now, freshId).record;
    assert IdOf(p) == IdOf(d.paramSets[i]);
    forall j | 0 <= j < i ensures IdOf(d.paramSets[j]) != IdOf(p) {
      assert IdOf(d.paramSets[j]) != IdOf(d.paramSets[i]);
    }
    UpsertReplacesFirstMatch(d.paramSets, IdOf, p, i);
  }

  /** Creating with an id that is not yet stored appends the new parameter set. */
  lemma CreateAppends(d: StorageData, command: Command, values: ParamSetValues, now: int, freshId: string)
    requires forall p :: p in d.paramSets ==> p.id != freshId
    requires SubmitParamSet(command, None, values, now, freshId).Accepted?
    ensures var p := SubmitParamSet(command, None, values, now, freshId).record;
      Upsert(d.paramSets, IdOf, p) == d.paramSets + [p]
  {
    var p := SubmitParamSet(command, None, values, now, freshId).record;
    forall j | 0 <= j < |d.paramSets| ensures IdOf(d.paramSets[j]) != IdOf(p) {
      assert d.paramSets[j] in d.paramSets;
    }
    UpsertAppendsNewKey(d.paramSets, IdOf, p);
  }

  /** The whole handler: validate, and only on success call saveParamSet. */
  method SubmitParamSetForm(store: Store, command: Command, existing: Option<ParamSet>,
                            values: ParamSetValues, now: int, freshId: string)
    returns (r: Submission<ParamSet>)
    modifies store
    ensures r == SubmitParamSet(command, existing, values, now, freshId)
    ensures r.Rejected? ==> store.item == old(store.item)
    ensures r.Accepted? ==>
      store.item == Some(old(store.Document()).(paramSets := Upsert(old(store.Document()).paramSets, IdOf, r.record)))
    ensures ValidDocument(old(store.Document())) ==> ValidDocument(store.Document())
  {
    r := SubmitParamSet(command, existing, values, now, freshId);
    if r.Accepted? {
      ghost var before := store.Document();
      store.SaveParamSet(r.record);
      if ValidDocument(before) {
        SaveAcceptedParamSetKeepsValid(before, r);
      }
    }
  }

  // ----- variable form -----

  /** A stored variable as the form produces it: name and value both non-empty. */
  predicate ValidVariable(v: Variable) {
    v.name != "" && v.value != ""
  }

  /** handleSubmit of the variable form: the name is checked before the value, and an
      accepted submission is exactly the submitted pair. */
  function SubmitVariable(name: string, value: string): (r: Submission<Variable>)
    ensures r.Accepted? <==> name != "" && value != ""
    ensures r.Accepted? ==> r.record == Variable(name, value) && ValidVariable(r.record)
    ensures r.Rejected? ==> r.message == RequiredText(r.field)
    ensures r.Rejected? ==> (r.field == NameField <==> name == "")
    ensures r.Rejected? ==> (r.field == ValueField <==> name != "" && value == "")
  {
    if name == "" then Rejected(NameField, RequiredText(NameField))
    else if value == "" then Rejected(ValueField, RequiredText(ValueField))
    else Accepted(Variable(name, value))
  }

  /** Saving an accepted variable keeps the document valid. */
  lemma SaveAcceptedVariableKeepsValid(d: StorageData, v: Variable)
    requires ValidDocument(d) && ValidVariable(v)
    ensures ValidDocument(d.(variables := Upsert(d.variables, NameOf, v)))
  {
    var s := Upsert(d.variables, NameOf, v);
    forall w | w in s ensures ValidVariable(w) {
      var j :| 0 <= j < |s| && s[j] == w;
      assert s[j] == v || s[j] in d.variables;
    }
    UpsertKeepsKeysUnique(d.variables, NameOf, v);
  }

  /** Deleting never makes a valid document invalid. */
  lemma DeleteKeepsValid(d: StorageData, name: string, id: string)
    requires ValidDocument(d)
    ensures ValidDocument(d.(variables := RemoveKey(d.variables, NameOf, name)))
    ensures ValidDocument(d.(paramSets := RemoveKey(d.paramSets, IdOf, id)))
  {
    RemoveKeyKeepsUnique(d.variables, NameOf, name);
    RemoveKeyKeepsUnique(d.paramSets, IdOf, id);
  }

  /** The whole handler: validate, and only on success call saveVariable. */
  method SubmitVariableForm(store: Store, name: string, value: string) returns (r: Submission<Variable>)
    modifies store
    ensures r == SubmitVariable(name, value)
    ensures r.Rejected? ==> store.item == old(store.item)
    ensures r.Accepted? ==>
      store.item == Some(old(store.Document()).(variables := Upsert(old(store.Document()).variables, NameOf, r.record)))
    ensures ValidDocument(old(store.Document())) ==> ValidDocument(store.Document())
  {
    r := SubmitVariable(name, value);
    if r.Accepted? {
      ghost var before := store.Document();
      store.SaveVariable(r.record);
      if ValidDocument(before) {
        SaveAcceptedVariableKeepsValid(before, r.record);
      }
    }
  }
}
