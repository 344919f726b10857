/** The variable and parameter-set store (src/storage.ts). Every operation reads the
    whole persisted document, changes it and writes it back under the one storage
    key; the key-value primitive and its JSON encoding are abstracted to `item`,
    the decoded value stored under that key. */
module Storage {
  import opened Types
  import opened Lists

  const EmptyDocument: StorageData := StorageData([], [])

  /** getStorageData: an absent item reads as the empty document, not as an error. */
  function ReadDocument(item: Option<StorageData>): (d: StorageData)
    ensures item.None? ==> d.variables == [] && d.paramSets == []
    ensures item.Some? ==> d == item.value
  {
    match item
    case None => EmptyDocument
    case Some(data) => data
  }

  /** getParamSets' filter: the parameter sets for one command, in document order. */
  function ParamSetsFor(paramSets: seq<ParamSet>, command: Command): (r: seq<ParamSet>)
    ensures forall p :: p in r <==> p in paramSets && p.command == command
  {
    SelectKey(paramSets, CommandOf, command)
  }

  /** With two command kinds, dropping the copy presets leaves exactly the modify-json ones. */
  lemma {:induction false} CopyRemainderIsModifyJson(paramSets: seq<ParamSet>)
    ensures RemoveKey(paramSets, CommandOf, Copy) == SelectKey(paramSets, CommandOf, ModifyJson)
    decreases |paramSets|
  {
    if paramSets != [] {
      CopyRemainderIsModifyJson(paramSets[1..]);
      assert CommandOf(paramSets[0]) == Copy || CommandOf(paramSets[0]) == ModifyJson;
    }
  }

  /** The two per-command views partition the stored parameter sets: each entry is in
      exactly one of them, and neither ever holds an entry of the other kind. */
  lemma ParamSetsPartition(paramSets: seq<ParamSet>)
    ensures |ParamSetsFor(paramSets, Copy)| + |ParamSetsFor(paramSets, ModifyJson)| == |paramSets|
    ensures multiset(ParamSetsFor(paramSets, Copy)) + multiset(ParamSetsFor(paramSets, ModifyJson))
            == multiset(paramSets)
    ensures forall p :: p in ParamSetsFor(paramSets, Copy) ==> p.command != ModifyJson
    ensures forall p :: p in ParamSetsFor(paramSets, ModifyJson) ==> p.command != Copy
  {
    SelectRemovePartition(paramSets, CommandOf, Copy);
    CopyRemainderIsModifyJson(paramSets);
  }

  /** The persisted document and the operations of storage.ts on it. */
  class Store {
    /** The value stored under the storage key; `None` until the first write. */
    var item: Option<StorageData>

    constructor ()
      ensures item == None
      ensures Document() == EmptyDocument
    {
      item := None;
    }

    /** The document every operation starts from (getStorageData). */
    function Document(): StorageData
      reads this
    {
      ReadDocument(item)
    }

    method GetVariables() returns (variables: seq<Variable>)
      ensures variables == Document().variables
      ensures item.None? ==> variables == []
    {
      var data := Document();
      variables := data.variables;
    }

    /** Overwrite the first variable with the same name, else append; then write back. */
    method SaveVariable(variable: Variable)
      modifies this
      ensures item == Some(old(Document()).(variables := Upsert(old(Document()).variables, NameOf, variable)))
      ensures Document().paramSets == old(Document()).paramSets
    {
      var data := Document();
      var index := IndexOfKey(data.variables, NameOf, variable.name);
      if index >= 0 {
        data := data.(variables := data.variables[index := variable]);
      } else {
        data := data.(variables := data.variables + [variable]);
      }
      item := Some(data);
    }

    /** Keep the variables whose name differs; write back even when nothing matched. */
    method DeleteVariable(name: string)
      modifies this
      ensures item == Some(old(Document()).(variables := RemoveKey(old(Document()).variables, NameOf, name)))
      ensures Document().paramSets == old(Document()).paramSets
    {
      var data := Document();
      data := data.(variables := RemoveKey(data.variables, NameOf, name));
      item := Some(data);
    }

    method GetParamSets(command: Command) returns (paramSets: seq<ParamSet>)
      ensures paramSets == ParamSetsFor(Document().paramSets, command)
      ensures forall p :: p in paramSets ==> p.command == command
    {
      var data := Document();
      paramSets := ParamSetsFor(data.paramSets, command);
    }

    /** Overwrite the first parameter set with the same id, else append; then write back. */
    method SaveParamSet(paramSet: ParamSet)
      modifies this
      ensures item == Some(old(Document()).(paramSets := Upsert(old(Document()).paramSets, IdOf, paramSet)))
      ensures Document().variables == old(Document()).variables
    {
      var data := Document();
      var index := IndexOfKey(data.paramSets, IdOf, paramSet.id);
      if index >= 0 {
        data := data.(paramSets := data.paramSets[index := paramSet]);
      } else {
        data := data.(paramSets := data.paramSets + [paramSet]);
      }
      item := Some(data);
    }

    /** Keep the parameter sets whose id differs; write back even when nothing matched. */
    method DeleteParamSet(id: string)
      modifies this
      ensures item == Some(old(Document()).(paramSets := RemoveKey(old(Document()).paramSets, IdOf, id)))
      ensures Document().variables == old(Document()).variables
    {
      var data := Document();
      data := data.(paramSets := RemoveKey(data.paramSets, IdOf, id));
      item := Some(data);
    }
  }
}
