/** ValuesAllowedConstraintValidator: a Bean Validation check that a string
    field holds one of a fixed list of values, compared ignoring case; on a
    rejected value it replaces the default violation by one carrying the
    annotation's message. */
module ValuesAllowed {
  import opened Common

  /** The attributes of the @ValuesAllowedConstraint annotation the validator
      reads. */
  datatype ValuesAllowedConstraint = ValuesAllowedConstraint(message: string, values: seq<string>)

  /** `allowable.stream().anyMatch(v -> v.equalsIgnoreCase(value))`. */
  function AnyMatch(allowable: seq<string>, value: string): (r: bool)
    ensures r <==> exists k :: 0 <= k < |allowable| && EqualsIgnoreCase(allowable[k], value)
  {
    if allowable == [] then false
    else
      assert forall k :: 0 < k < |allowable| ==> allowable[k] == allowable[1..][k - 1];
      EqualsIgnoreCase(allowable[0], value) || AnyMatch(allowable[1..], value)
  }

  /** The verdict of isValid: null is always accepted; any other value is
      accepted exactly when some allowed value equals it ignoring case, so an
      empty list accepts null only. */
  function Verdict(allowable: seq<string>, value: Option<string>): (r: bool)
    ensures value.None? ==> r
    ensures value.Some? ==> (r <==> exists a :: a in allowable && EqualsIgnoreCase(a, value.value))
    ensures allowable == [] ==> (r <==> value.None?)
  {
    value.None? || AnyMatch(allowable, value.value)
  }

  /** Lower-casing twice is lower-casing once. */
  lemma LowerIdempotent(s: string)
    ensures Lower(Lower(s)) == Lower(s)
  {
    var l := Lower(s);
    assert forall i :: 0 <= i < |s| ==> Lower(l)[i] == FoldLower(FoldLower(s[i]));
  }

  /** The case a value is written in does not change the verdict. */
  lemma VerdictIgnoresCase(allowable: seq<string>, value: string)
    ensures Verdict(allowable, Some(Lower(value))) == Verdict(allowable, Some(value))
  {
    LowerIdempotent(value);
  }

  /** The part of ConstraintValidatorContext the validator touches: whether the
      default violation is still reported, and the violations added. */
  class ConstraintContext {
    var defaultEnabled: bool
    var violations: seq<string>

    constructor ()
      ensures defaultEnabled && violations == []
    {
      defaultEnabled := true;
      violations := [];
    }

    /** disableDefaultConstraintViolation. */
    method DisableDefaultConstraintViolation()
      modifies this
      ensures !defaultEnabled && violations == old(violations)
    {
      defaultEnabled := false;
    }

    /** buildConstraintViolationWithTemplate(template).addConstraintViolation(). */
    method AddConstraintViolation(template: string)
      modifies this
      ensures violations == old(violations) + [template] && defaultEnabled == old(defaultEnabled)
    {
      violations := violations + [template];
    }
  }

  class ValuesAllowedConstraintValidator {
    /** Both fields are null until initialize runs. */
    var message: Option<string>
    var allowable: Option<seq<string>>

    ghost predicate Valid()
      reads this
    {
      message.Some? <==> allowable.Some?
    }

    constructor ()
      ensures Valid() && message.None? && allowable.None?
    {
      message := None;
      allowable := None;
    }

    /** initialize: keeps the annotation's message and values, replacing what
        an earlier call kept. */
    method Initialize(annotation: ValuesAllowedConstraint)
      modifies this
      ensures Valid()
      ensures message == Some(annotation.message) && allowable == Some(annotation.values)
    {
      message := Some(annotation.message);
      allowable := Some(annotation.values);
    }

    /** isValid: the verdict for `value`. A rejected value disables the default
        violation and adds exactly one violation carrying the message; an
        accepted one leaves the context untouched. Before initialize, a null
        value is still accepted, while any other value dereferences the unset
        list. */
    method IsValid(value: Option<string>, context: ConstraintContext) returns (r: Result<bool>)
      requires Valid()
      modifies context
      ensures allowable.None? && value.Some? ==> r == Err(NullPointer)
      ensures value.None? ==> r == Ok(true)
      ensures allowable.Some? ==> r == Ok(Verdict(allowable.value, value))
      ensures r == Ok(false) ==>
        && !context.defaultEnabled
        && context.violations == old(context.violations) + [message.value]
      ensures r != Ok(false) ==>
        context.defaultEnabled == old(context.defaultEnabled) && context.violations == old(context.violations)
    {
      if value.Some? && allowable.None? {
        return Err(NullPointer);
      }
      var valid := value.None? || AnyMatch(allowable.value, value.value);
      if !valid {
        context.DisableDefaultConstraintViolation();
        context.AddConstraintViolation(message.value);
      }
      r := Ok(valid);
    }
  }

  /** Only the latest initialize decides: after two, the verdict is that of the
      second annotation's values and a rejection carries its message. */
  method LatestInitializeDecides(a: ValuesAllowedConstraint, b: ValuesAllowedConstraint, value: string)
    returns (r: Result<bool>, context: ConstraintContext)
    ensures r == Ok(Verdict(b.values, Some(value)))
    ensures r == Ok(false) ==> context.violations == [b.message] && !context.defaultEnabled
    ensures r == Ok(true) ==> context.violations == [] && context.defaultEnabled
  {
    var validator := new ValuesAllowedConstraintValidator();
    validator.Initialize(a);
    validator.Initialize(b);
    context := new ConstraintContext();
    r := validator.IsValid(Some(value), context);
  }
}
