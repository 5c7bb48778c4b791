/**
 * Relationship descriptors of the genyrator code generator
 * (genyrator/entities/Relationship.py).
 *
 * `create_relationship` derives a handful of names from its arguments, fills
 * defaults, and returns one of two record variants, chosen by whether a join
 * table was given. It validates nothing and has no failure path.
 *
 * `pythonize` lives in an inflector module that is not part of this model; it
 * is a parameter of every member that uses it. Its argument is optional
 * because the source also pythonizes `source_column_name`, which defaults to
 * `None`; the model takes `pythonize` to return a string there as well.
 */
module Relationships {
  import opened Wrappers

  /** The cardinality enum; each member's value is its own name. */
  datatype JoinOption = ToOne | ToMany
  {
    /** The enum member's value, `JoinOption.to_one.value`. */
    function Value(): (s: string)
      ensures this == ToOne <==> s == "to_one"
      ensures this == ToMany <==> s == "to_many"
    {
      match this
      case ToOne => "to_one"
      case ToMany => "to_many"
    }
  }

  /** Enum lookup by value, `JoinOption(s)`; None where Python raises ValueError. */
  function JoinOptionFromValue(s: string): (r: Option<JoinOption>)
    ensures s == "to_one" <==> r == Some(ToOne)
    ensures s == "to_many" <==> r == Some(ToMany)
    ensures r.Some? ==> r.value.Value() == s
  {
    if s == "to_one" then Some(ToOne)
    else if s == "to_many" then Some(ToMany)
    else None
  }

  lemma JoinOptionValueRoundTrip(j: JoinOption)
    ensures JoinOptionFromValue(j.Value()) == Some(j)
  {
  }

  /** The base attrs class `Relationship`: the fields both variants share. */
  datatype Relationship = Relationship(
    pythonName: string,
    targetEntityClassName: string,
    targetEntityPythonName: string,
    targetForeignKeyColumnName: string,
    sourceColumnName: string,
    propertyName: string,
    nullable: bool,
    lazy: bool,
    join: JoinOption)

  /**
   * The two subclasses. Each carries every field of `Relationship` plus one of
   * its own; `None` is a legal value of that extra field.
   */
  datatype Descriptor =
    | RelationshipWithoutJoinTable(
        pythonName: string,
        targetEntityClassName: string,
        targetEntityPythonName: string,
        targetForeignKeyColumnName: string,
        sourceColumnName: string,
        propertyName: string,
        nullable: bool,
        lazy: bool,
        join: JoinOption,
        targetIdentifierColumnName: Option<string>)
    | RelationshipWithJoinTable(
        pythonName: string,
        targetEntityClassName: string,
        targetEntityPythonName: string,
        targetForeignKeyColumnName: string,
        sourceColumnName: string,
        propertyName: string,
        nullable: bool,
        lazy: bool,
        join: JoinOption,
        joinTable: Option<string>)
  {
    /** The shared fields, as a base-class record. */
    function Base(): Relationship
    {
      Relationship(pythonName, targetEntityClassName, targetEntityPythonName,
                   targetForeignKeyColumnName, sourceColumnName, propertyName,
                   nullable, lazy, join)
    }
  }

  /** The keyword arguments of `create_relationship`, with the source's defaults. */
  datatype Arguments = Arguments(
    targetEntityClassName: string,
    nullable: bool,
    lazy: bool,
    join: JoinOption,
    sourceColumnName: Option<string> := None,
    joinTable: Option<string> := None,
    targetIdentifierColumnName: Option<string> := None,
    targetForeignKeyColumnName: Option<string> := None,
    propertyName: Option<string> := None)

  /** Python truthiness of an optional string: neither None nor empty. */
  predicate Truthy(o: Option<string>)
  {
    o.Some? && o.value != ""
  }

  /** Lines 47-59: the intermediate base record with derived names and defaults. */
  function BaseRelationship(pythonize: Option<string> -> string, args: Arguments): (b: Relationship)
    ensures b.pythonName == b.targetEntityPythonName == pythonize(Some(args.targetEntityClassName))
    ensures b.targetEntityClassName == args.targetEntityClassName
    ensures b.targetForeignKeyColumnName ==
      if Truthy(args.targetForeignKeyColumnName) then args.targetForeignKeyColumnName.value
      else b.targetEntityPythonName + "_id"
    ensures b.sourceColumnName == pythonize(args.sourceColumnName)
    ensures b.propertyName ==
      if Truthy(args.propertyName) then args.propertyName.value else b.targetEntityPythonName
    ensures b.nullable == args.nullable && b.lazy == args.lazy && b.join == args.join
  {
    var targetEntityPythonName := pythonize(Some(args.targetEntityClassName));
    Relationship(
      pythonName := targetEntityPythonName,
      targetEntityClassName := args.targetEntityClassName,
      targetEntityPythonName := targetEntityPythonName,
      targetForeignKeyColumnName :=
        if Truthy(args.targetForeignKeyColumnName) then args.targetForeignKeyColumnName.value
        else targetEntityPythonName + "_id",
      sourceColumnName := pythonize(args.sourceColumnName),
      propertyName := if Truthy(args.propertyName) then args.propertyName.value else targetEntityPythonName,
      nullable := args.nullable,
      lazy := args.lazy,
      join := args.join)
  }

  /** Line 64: a without-join-table descriptor built from a copy of the base fields. */
  function WithoutJoinTableFrom(base: Relationship, targetIdentifierColumnName: Option<string>): (r: Descriptor)
    ensures r.RelationshipWithoutJoinTable?
    ensures r.Base() == base
    ensures r.targetIdentifierColumnName == targetIdentifierColumnName
  {
    RelationshipWithoutJoinTable(
      base.pythonName, base.targetEntityClassName, base.targetEntityPythonName,
      base.targetForeignKeyColumnName, base.sourceColumnName, base.propertyName,
      base.nullable, base.lazy, base.join, targetIdentifierColumnName)
  }

  /** Line 69: a with-join-table descriptor built from a copy of the base fields. */
  function WithJoinTableFrom(base: Relationship, joinTable: Option<string>): (r: Descriptor)
    ensures r.RelationshipWithJoinTable?
    ensures r.Base() == base
    ensures r.joinTable == joinTable
  {
    RelationshipWithJoinTable(
      base.pythonName, base.targetEntityClassName, base.targetEntityPythonName,
      base.targetForeignKeyColumnName, base.sourceColumnName, base.propertyName,
      base.nullable, base.lazy, base.join, joinTable)
  }

  /**
   * `create_relationship`: total, no validation. The variant is decided by
   * `join_table is None`, but the join-table field itself by truthiness.
   */
  function CreateRelationship(pythonize: Option<string> -> string, args: Arguments): (r: Descriptor)
    ensures r.Base() == BaseRelationship(pythonize, args)
    ensures r.RelationshipWithJoinTable? <==> args.joinTable.Some?
    ensures r.RelationshipWithoutJoinTable? ==>
      r.targetIdentifierColumnName ==
        if Truthy(args.targetIdentifierColumnName) then Some(pythonize(args.targetIdentifierColumnName))
        else None
    ensures r.RelationshipWithJoinTable? ==>
      r.joinTable == if Truthy(args.joinTable) then args.joinTable else None
  {
    var relationship := BaseRelationship(pythonize, args);
    if args.joinTable.None? then
      var targetIdentifierColumnName :=
        if Truthy(args.targetIdentifierColumnName) then Some(pythonize(args.targetIdentifierColumnName))
        else None;
      WithoutJoinTableFrom(relationship, targetIdentifierColumnName)
    else
      WithJoinTableFrom(relationship, if Truthy(args.joinTable) then args.joinTable else None)
  }

  /** `pythonize` applied to its own output changes nothing. */
  ghost predicate Idempotent(pythonize: Option<string> -> string)
  {
    forall o :: pythonize(Some(pythonize(o))) == pythonize(o)
  }

  /** `pythonize` never turns a non-empty name into an empty one. */
  ghost predicate KeepsNonEmpty(pythonize: Option<string> -> string)
  {
    forall s :: s != "" ==> pythonize(Some(s)) != ""
  }

  /**
   * The shape every descriptor that `create_relationship` returns has, stated
   * without reference to its arguments.
   */
  ghost predicate WellFormed(pythonize: Option<string> -> string, r: Descriptor)
  {
    && r.pythonName == r.targetEntityPythonName == pythonize(Some(r.targetEntityClassName))
    && r.targetForeignKeyColumnName != ""
    && (r.propertyName == "" ==> r.targetEntityPythonName == "")
    && pythonize(Some(r.sourceColumnName)) == r.sourceColumnName
    && (r.RelationshipWithoutJoinTable? && r.targetIdentifierColumnName.Some? ==>
          var t := r.targetIdentifierColumnName.value;
          t != "" && pythonize(Some(t)) == t)
    && (r.RelationshipWithJoinTable? ==> r.joinTable != Some(""))
  }

  /** Arguments that name every field of `r` explicitly. */
  function ArgumentsOf(r: Descriptor): Arguments
  {
    Arguments(
      targetEntityClassName := r.targetEntityClassName,
      nullable := r.nullable,
      lazy := r.lazy,
      join := r.join,
      sourceColumnName := Some(r.sourceColumnName),
      joinTable :=
        if r.RelationshipWithoutJoinTable? then None
        else if r.joinTable.Some? then r.joinTable else Some(""),
      targetIdentifierColumnName := if r.RelationshipWithoutJoinTable? then r.targetIdentifierColumnName else None,
      targetForeignKeyColumnName := Some(r.targetForeignKeyColumnName),
      propertyName := Some(r.propertyName))
  }

  /** Every descriptor the constructor returns is well formed, for a well-behaved `pythonize`. */
  lemma CreatedIsWellFormed(pythonize: Option<string> -> string, args: Arguments)
    requires Idempotent(pythonize) && KeepsNonEmpty(pythonize)
    ensures WellFormed(pythonize, CreateRelationship(pythonize, args))
  {
    var r := CreateRelationship(pythonize, args);
    if Truthy(args.targetIdentifierColumnName) && args.joinTable.None? {
      assert pythonize(Some(pythonize(args.targetIdentifierColumnName))) == pythonize(args.targetIdentifierColumnName);
    }
    assert pythonize(Some(r.sourceColumnName)) == r.sourceColumnName by {
      assert pythonize(Some(pythonize(args.sourceColumnName))) == pythonize(args.sourceColumnName);
    }
  }

  /**
   * Every well-formed descriptor is produced by the constructor, from the
   * arguments that spell out its own fields: explicit values equal to the
   * derived ones are reproduced, so the defaults are a fixed point.
   */
  lemma WellFormedIsCreated(pythonize: Option<string> -> string, r: Descriptor)
    requires WellFormed(pythonize, r)
    ensures CreateRelationship(pythonize, ArgumentsOf(r)) == r
  {
  }

  /** None and the empty string are alike for the defaulted name arguments. */
  lemma FalsyNamesAreDefaults(pythonize: Option<string> -> string, args: Arguments)
    ensures CreateRelationship(pythonize, args.(targetForeignKeyColumnName := Some("")))
         == CreateRelationship(pythonize, args.(targetForeignKeyColumnName := None))
    ensures CreateRelationship(pythonize, args.(propertyName := Some("")))
         == CreateRelationship(pythonize, args.(propertyName := None))
    ensures CreateRelationship(pythonize, args.(targetIdentifierColumnName := Some("")))
         == CreateRelationship(pythonize, args.(targetIdentifierColumnName := None))
  {
  }

  /**
   * For `join_table` they are not: an empty join table selects the
   * with-join-table variant, whose join table is then None.
   */
  lemma EmptyJoinTableKeepsVariant(pythonize: Option<string> -> string, args: Arguments)
    ensures var r := CreateRelationship(pythonize, args.(joinTable := Some("")));
            r.RelationshipWithJoinTable? && r.joinTable.None?
    ensures CreateRelationship(pythonize, args.(joinTable := None)).RelationshipWithoutJoinTable?
    ensures CreateRelationship(pythonize, args.(joinTable := Some(""))).Base()
         == CreateRelationship(pythonize, args.(joinTable := None)).Base()
  {
  }

  /** The join table argument only decides the variant and its extra field. */
  lemma JoinTableLeavesBaseAlone(pythonize: Option<string> -> string, args: Arguments, joinTable: Option<string>)
    ensures CreateRelationship(pythonize, args.(joinTable := joinTable)).Base()
         == CreateRelationship(pythonize, args).Base()
  {
  }
}
