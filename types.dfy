/** Records shared by the store, the resolver, the command bridge and the forms
    (src/types.ts). Optional TypeScript properties become `Option` values. */
module Types {

  datatype Option<+T> = None | Some(value: T)

  /** A value, or the message of the exception that prevented it. */
  datatype Result<+T> = Ok(value: T) | Err(message: string)

  /** The two kinds of operation a parameter set can be for. */
  datatype Command = Copy | ModifyJson

  /** A named string usable inside `{{name}}` placeholders; identified by `name`. */
  datatype Variable = Variable(name: string, value: string)

  datatype Params = Params(from: string, to: string, skipExist: Option<bool>, jsonPath: Option<string>)

  /** A named, command-typed preset; identified by `id`. Timestamps are milliseconds. */
  datatype ParamSet = ParamSet(
    id: string,
    name: string,
    command: Command,
    params: Params,
    createdAt: int,
    updatedAt: int)

  /** The single persisted document that both stores read and rewrite wholesale. */
  datatype StorageData = StorageData(variables: seq<Variable>, paramSets: seq<ParamSet>)

  /** The structured result of one invocation of the external tool. */
  datatype CommandOutput = CommandOutput(
    success: bool,
    message: string,
    output: Option<string>,
    error: Option<string>)

  /** Key functions used by the store: variables are keyed by name, parameter sets by id. */
  function NameOf(v: Variable): string { v.name }

  function IdOf(p: ParamSet): string { p.id }

  function CommandOf(p: ParamSet): Command { p.command }

  /** JavaScript truthiness of an optional string: present and non-empty. */
  predicate Truthy(s: Option<string>) {
    s.Some? && s.value != ""
  }
}
