/**
 * The symbol table: declared names with their type and value, in the order
 * they were declared. It only grows; a name is declared at most once.
 */
module SymbolTables {
  import opened Types

  /** What the table records for one name. */
  datatype Entry = Entry(varType: TypeTag, value: Value)

  /** One row of the rendered listing (column padding is not modelled). */
  datatype Row = Row(variable: string, typeName: string, value: string)

  const Header: Row := Row("Variable", "Type", "Value")

  /** An entry whose cells can be formatted: a literal value and a type
      name. An expression node or an absent type has no fixed-width format. */
  predicate Printable(e: Entry)
  {
    e.value.Scalar? && !e.varType.NoType?
  }

  function RowOf(name: string, e: Entry): Row
    requires Printable(e)
  {
    Row(name, TypeName(e.varType), e.value.text)
  }

  /** The table as a value: the names in declaration order and the entry of
      each name. */
  datatype Table = Table(names: seq<string>, entries: map<string, Entry>) {

    /** The order list and the map describe the same names, each once. */
    ghost predicate Valid()
    {
      && (forall n :: n in entries <==> n in names)
      && (forall i, j :: 0 <= i < j < |names| ==> names[i] != names[j])
    }

    /** Registers a new name; a name already present is refused and the
        table is left as it was. */
    function Declare(name: string, ty: TypeTag, value: Value): (r: Result<Table>)
      ensures r.Failure? <==> name in entries
      ensures r.Failure? ==> r.error == DuplicateDeclaration(name)
      ensures r.Success? ==> r.value.entries.Keys == entries.Keys + {name}
      ensures r.Success? ==> r.value.entries[name] == Entry(ty, value)
      ensures r.Success? ==> forall n :: n in entries ==> r.value.entries[n] == entries[n]
      ensures r.Success? ==> r.value.names == names + [name]
      ensures Valid() && r.Success? ==> r.value.Valid()
    {
      if name in entries then Failure(DuplicateDeclaration(name))
      else Success(Table(names + [name], entries[name := Entry(ty, value)]))
    }

    /** The entry of a declared name; an unknown name is refused. */
    function Lookup(name: string): (r: Result<Entry>)
      ensures r.Success? <==> name in entries
      ensures r.Success? ==> r.value == entries[name]
      ensures r.Failure? ==> r.error == UndeclaredVariable(name)
    {
      if name in entries then Success(entries[name]) else Failure(UndeclaredVariable(name))
    }

    /** The listing: a header, then one row per entry in declaration order.
        Formatting fails when some entry cannot be printed. */
    function Render(): (r: Option<seq<Row>>)
      requires Valid()
      ensures r.Some? <==> forall n :: n in entries ==> Printable(entries[n])
      ensures r.Some? ==> |r.value| == |names| + 1 && r.value[0] == Header
      ensures r.Some? ==> forall i :: 0 <= i < |names| ==>
                            var row := r.value[1..][i];
                            && row.variable == names[i]
                            && row.typeName == TypeName(entries[names[i]].varType)
                            && Scalar(row.value) == entries[names[i]].value
    {
      if forall n | n in entries :: Printable(entries[n]) then
        Some([Header] + seq(|names|, i requires 0 <= i < |names| => RowOf(names[i], entries[names[i]])))
      else
        None
    }
  }

  /** Declaring a fresh name makes exactly that name resolve to the new
      entry, and every other lookup answers as before. */
  lemma LookupAfterDeclare(t: Table, name: string, ty: TypeTag, value: Value, other: string)
    requires name !in t.entries
    ensures t.Declare(name, ty, value).Success?
    ensures t.Declare(name, ty, value).value.Lookup(name) == Success(Entry(ty, value))
    ensures other != name ==> t.Declare(name, ty, value).value.Lookup(other) == t.Lookup(other)
  {
  }

  /** Declaring twice always fails the second time, whatever the second
      type and value. */
  lemma RedeclareFails(t: Table, name: string, ty: TypeTag, value: Value, ty': TypeTag, value': Value)
    requires t.Declare(name, ty, value).Success?
    ensures t.Declare(name, ty, value).value.Declare(name, ty', value') == Failure(DuplicateDeclaration(name))
  {
  }

  /** The table object the analyzer owns and updates in place. */
  class SymbolTable {
    var names: seq<string>
    var entries: map<string, Entry>

    function State(): Table
      reads this
    {
      Table(names, entries)
    }

    ghost predicate Valid()
      reads this
    {
      State().Valid()
    }

    constructor ()
      ensures Valid()
      ensures State() == Table([], map[])
    {
      names := [];
      entries := map[];
    }

    /** Adds `name` unless it is already present; on refusal nothing
        changes. */
    method Declare(name: string, ty: TypeTag, value: Value) returns (r: Outcome)
      requires Valid()
      modifies this
      ensures Valid()
      ensures r.Fail? <==> name in old(entries)
      ensures r.Fail? ==> r.error == DuplicateDeclaration(name) && State() == old(State())
      ensures r.Pass? ==> names == old(names) + [name] && entries == old(entries)[name := Entry(ty, value)]
      ensures old(State()).Declare(name, ty, value) == if r.Pass? then Success(State()) else Failure(r.error)
    {
      if name in entries {
        r := Fail(DuplicateDeclaration(name));
      } else {
        entries := entries[name := Entry(ty, value)];
        names := names + [name];
        r := Pass;
      }
    }

    /** Reads the entry of `name`; the table is not modified. */
    method Lookup(name: string) returns (r: Result<Entry>)
      ensures r.Success? <==> name in entries
      ensures r.Success? ==> r.value == entries[name]
      ensures r == State().Lookup(name)
    {
      if name in entries {
        r := Success(entries[name]);
      } else {
        r := Failure(UndeclaredVariable(name));
      }
    }
  }
}
