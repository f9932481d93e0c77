/** The class records of a repo, which resolving and indexing update in place. */
module ClassTable {
  import opened Digraph
  import opened ClassSchema
  import opened Options

  datatype Err = Ok | Fail | NoMatch | Conflict

  /** One class record.  What the schema declares about the class is kept apart: it never changes. */
  datatype KndClass = KndClass(
    ancestors: seq<Name>,
    attrIdx: AttrIdx,
    resolvingInProgress: bool,
    isResolved: bool,
    baseResolvingInProgress: bool,
    baseIsResolved: bool)

  const NEW_CLASS := KndClass([], map[], false, false, false, false)

  type ClassMap = map<Name, KndClass>

  function NewClasses(s: Schema): ClassMap {
    map n | n in s :: NEW_CLASS
  }

  class Repo {
    const schema: Schema
    /** The root class: it has no record here, and no clause can name it. */
    const root: Name

    var classes: ClassMap
    /** Names whose clause entry, shared by all clauses that mention the name, has its class pointer set. */
    var bound: set<Name>

    constructor (schema: Schema, root: Name)
      ensures this.schema == schema && this.root == root
      ensures classes == NewClasses(schema)
      ensures bound == {}
    {
      this.schema, this.root := schema, root;
      classes := NewClasses(schema);
      bound := {};
    }

    ghost predicate Valid()
      reads this
    {
      classes.Keys == schema.Keys && root !in schema && WellFormed(schema)
    }

    /** state_top, as it is read through an ancestor reference. */
    predicate StateTop(n: Name) {
      n == root || (n in schema && schema[n].stateTop)
    }
  }
}
