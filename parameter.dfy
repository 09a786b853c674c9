/** The `Parameter` entity, whose `Type` property normalises every value written to it. */
module Parameters {
  import opened Wrappers
  import opened ParameterTypes

  class Parameter {
    var parameterCode: Option<string>
    var parameterName: Option<string>
    var unit: Option<string>
    var isDeleted: bool
    /** The backing field `_type`. */
    var storedType: string

    /** The backing field only ever holds a normalised category. */
    ghost predicate Valid()
      reads this
    {
      IsCategory(storedType)
    }

    /** A new parameter has no code, name or unit yet and is of type "water". */
    constructor ()
      ensures Valid()
      ensures Type() == Water
      ensures parameterCode == None && parameterName == None && unit == None && !isDeleted
    {
      parameterCode, parameterName, unit, isDeleted := None, None, None, false;
      storedType := Water;
    }

    /** The `Type` getter. */
    function Type(): (t: string)
      reads this
      requires Valid()
      ensures IsCategory(t)
    {
      storedType
    }

    /** The `Type` setter: stores `Normalize(value)`, so null or blank text is stored as "water". */
    method SetType(value: Option<string>)
      modifies this
      ensures Valid()
      ensures Type() == Normalize(value)
      ensures parameterCode == old(parameterCode) && parameterName == old(parameterName)
      ensures unit == old(unit) && isDeleted == old(isDeleted)
    {
      storedType := Normalize(value);
    }
  }

  /** Writing back the type just read leaves it unchanged. */
  lemma ReassigningTypeKeepsIt(p: Parameter)
    requires p.Valid()
    ensures Normalize(Some(p.Type())) == p.Type()
  {
    NormalizeCategory(p.Type());
  }
}
