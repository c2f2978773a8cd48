/**
 * The variable store (UniversalCommandSystem): a dictionary from variable
 * names to boxed values of three types, filled by "set" commands and read
 * back with a typed TryGetValue.
 */
module Commands {
  import opened Wrappers

  /** The three types SetValue has an overload for. */
  datatype ValueType = StringType | FloatType | BoolType

  /**
   * A boxed value as the dictionary holds it. A string may be null
   * (None); floats are integers in this model.
   */
  datatype Value = StringValue(s: Option<string>) | FloatValue(f: int) | BoolValue(b: bool)
  {
    function Type(): ValueType {
      match this
      case StringValue(_) => StringType
      case FloatValue(_) => FloatType
      case BoolValue(_) => BoolType
    }

    /** The boxed value compares equal to null. */
    predicate IsNull() {
      this == StringValue(None)
    }
  }

  /** `default(T)` for each of the three types: null, 0 and false. */
  function Default(t: ValueType): (v: Value)
    ensures v.Type() == t
  {
    match t
    case StringType => StringValue(None)
    case FloatType => FloatValue(0)
    case BoolType => BoolValue(false)
  }

  /** One initialisation command: its type, the variable it names and the value it carries. */
  datatype CommandData = CommandData(commandType: string, variableName: string, value: Value)

  type Variables = map<string, Value>

  /**
   * What TryGetValue<T> does: it returns a flag and an out value, or the
   * cast `(T)_variables[name]` throws: InvalidCastException for a boxed
   * value of another type, NullReferenceException when a null string is
   * unboxed as a float or a bool.
   */
  datatype TryGet = Got(found: bool, result: Value) | InvalidCast | NullUnbox

  function Lookup(vars: Variables, name: string, t: ValueType): (r: TryGet)
    ensures r.Got? ==> r.result.Type() == t
  {
    if name !in vars then Got(false, Default(t))
    else if vars[name].IsNull() && t != StringType then NullUnbox
    else if vars[name].Type() != t then InvalidCast
    else Got(!vars[name].IsNull(), vars[name])
  }

  /** RunCommand: only "set" does something; any other command type is logged and skipped. */
  function Run(vars: Variables, cmd: CommandData): Variables
  {
    if cmd.commandType == "set" then vars[cmd.variableName := cmd.value] else vars
  }

  /** Running the commands one after the other, in array order. */
  function RunAll(vars: Variables, cmds: seq<CommandData>): Variables
  {
    if cmds == [] then vars else Run(RunAll(vars, cmds[..|cmds| - 1]), cmds[|cmds| - 1])
  }

  class UniversalCommandSystem {
    var variables: Variables

    constructor ()
      ensures variables == map[]
    {
      variables := map[];
    }

    method RunCommand(commandData: CommandData)
      modifies this
      ensures variables == Run(old(variables), commandData)
    {
      if commandData.commandType == "set" {
        SetValue(commandData.variableName, commandData.value);
      }
    }

    /** The three SetValue overloads: the entry is created or replaced, whatever it held. */
    method SetValue(variableName: string, value: Value)
      modifies this
      ensures variables == old(variables)[variableName := value]
    {
      variables := variables[variableName := value];
    }

    method TryGetValue(variableName: string, t: ValueType) returns (r: TryGet)
      ensures r == Lookup(variables, variableName, t)
    {
      if variableName in variables {
        var boxed := variables[variableName];
        if boxed.IsNull() && t != StringType {
          r := NullUnbox;
        } else if boxed.Type() != t {
          r := InvalidCast;
        } else {
          r := Got(!boxed.IsNull(), boxed);
        }
      } else {
        r := Got(false, Default(t));
      }
    }

    method Clear()
      modifies this
      ensures variables == map[]
    {
      variables := map[];
    }

    method Contains(variableName: string) returns (b: bool)
      ensures b <==> variableName in variables
    {
      b := variableName in variables;
    }
  }

  /** After SetValue(n, v), TryGetValue(n) at v's type succeeds with v, unless v is a null string. */
  lemma SetThenGet(vars: Variables, name: string, v: Value)
    ensures Lookup(vars[name := v], name, v.Type()) == Got(!v.IsNull(), v)
  {
  }

  /** SetValue touches no other name, and replaces the entry of its own name whatever type it had. */
  lemma SetLeavesOthers(vars: Variables, name: string, v: Value, other: string, t: ValueType)
    requires other != name
    ensures Lookup(vars[name := v], other, t) == Lookup(vars, other, t)
    ensures (vars[name := v])[name] == v
  {
  }

  /** TryGetValue on a name that is not set: false and default(T). */
  lemma GetMissing(vars: Variables, name: string, t: ValueType)
    requires name !in vars
    ensures Lookup(vars, name, t) == Got(false, Default(t))
  {
  }

  /** A stored null string: Contains is true, yet TryGetValue<string> returns false. */
  lemma NullStringNotFound(vars: Variables, name: string)
    requires name in vars && vars[name] == StringValue(None)
    ensures Lookup(vars, name, StringType) == Got(false, StringValue(None))
  {
  }

  /**
   * Asking for another type than the stored one fails at the cast: a null
   * string cannot be unboxed as a float or a bool, any other value has the
   * wrong type.
   */
  lemma WrongTypeThrows(vars: Variables, name: string, t: ValueType)
    requires name in vars && vars[name].Type() != t
    ensures vars[name].IsNull() ==> Lookup(vars, name, t) == NullUnbox
    ensures !vars[name].IsNull() ==> Lookup(vars, name, t) == InvalidCast
  {
  }

  /** The last "set" of a name among the commands decides its value. */
  lemma {:induction false} LastSetWins(vars: Variables, cmds: seq<CommandData>, i: nat)
    requires i < |cmds| && cmds[i].commandType == "set"
    requires forall j | i < j < |cmds| :: !(cmds[j].commandType == "set" && cmds[j].variableName == cmds[i].variableName)
    ensures cmds[i].variableName in RunAll(vars, cmds)
    ensures RunAll(vars, cmds)[cmds[i].variableName] == cmds[i].value
  {
    var last := |cmds| - 1;
    if i < last {
      LastSetWins(vars, cmds[..last], i);
    }
  }

  /** A name that no command sets keeps the entry it had before. */
  lemma {:induction false} UnsetNameUnchanged(vars: Variables, cmds: seq<CommandData>, name: string)
    requires forall j | 0 <= j < |cmds| :: !(cmds[j].commandType == "set" && cmds[j].variableName == name)
    ensures name in RunAll(vars, cmds) <==> name in vars
    ensures name in vars ==> RunAll(vars, cmds)[name] == vars[name]
  {
    if cmds != [] {
      UnsetNameUnchanged(vars, cmds[..|cmds| - 1], name);
    }
  }
}
