/**
 * The Gravity Forms structures the duplicate guard reads and rewrites:
 * the form object, its fields, and the validation result handed to the
 * `gform_validation` filter; plus the scan for the largest field id.
 */
module Forms {

  /** A form field. Its id is already parsed to a non-negative whole number. */
  datatype Field = Field(id: nat, fieldLabel: string)

  /**
   * The form object: its id, its fields, the honeypot switch the guard turns on,
   * and every other form setting, which the guard never touches.
   */
  datatype Form = Form(id: int, fields: seq<Field>, enableHoneypot: bool, settings: map<string, string>)

  /** What the `gform_validation` filter receives and returns. */
  datatype ValidationResult = ValidationResult(isValid: bool, form: Form)

  /**
   * The largest field id, scanning from the first field to the last and
   * starting from 0: the value `$max` holds after the scan.
   */
  function MaxFieldId(fields: seq<Field>): nat
  {
    if fields == [] then 0
    else
      var max := MaxFieldId(fields[..|fields| - 1]);
      var val := fields[|fields| - 1].id;
      if val > max then val else max
  }

  /** No field id exceeds the maximum, and a form without fields has maximum 0. */
  lemma {:induction false} MaxFieldIdBounds(fields: seq<Field>)
    ensures fields == [] ==> MaxFieldId(fields) == 0
    ensures forall i :: 0 <= i < |fields| ==> fields[i].id <= MaxFieldId(fields)
  {
    if fields != [] {
      var init := fields[..|fields| - 1];
      MaxFieldIdBounds(init);
      forall i | 0 <= i < |fields| ensures fields[i].id <= MaxFieldId(fields) {
        if i < |fields| - 1 {
          assert fields[i] == init[i];
        }
      }
    }
  }

  /** A positive maximum is the id of some field: the scan never invents a value. */
  lemma {:induction false} MaxFieldIdAttained(fields: seq<Field>)
    ensures MaxFieldId(fields) > 0 ==> exists i :: 0 <= i < |fields| && fields[i].id == MaxFieldId(fields)
  {
    if fields != [] {
      var init := fields[..|fields| - 1];
      MaxFieldIdAttained(init);
      if MaxFieldId(fields) > 0 && MaxFieldId(fields) != fields[|fields| - 1].id {
        var i :| 0 <= i < |init| && init[i].id == MaxFieldId(init);
        assert fields[i] == init[i];
      }
    }
  }

  /** One more than the maximum is strictly greater than every field id. */
  lemma NextFieldIdIsUnused(fields: seq<Field>)
    ensures forall i :: 0 <= i < |fields| ==> fields[i].id < MaxFieldId(fields) + 1
    ensures forall f :: f in fields ==> f.id != MaxFieldId(fields) + 1
  {
  }

  /** The `foreach` scan over the form's fields that yields the largest id (0 for no fields). */
  method GetMaxFieldId(form: Form) returns (max: nat)
    ensures max == MaxFieldId(form.fields)
    ensures forall i :: 0 <= i < |form.fields| ==> form.fields[i].id <= max
    ensures max == 0 || exists i :: 0 <= i < |form.fields| && form.fields[i].id == max
  {
    max := 0;
    for i := 0 to |form.fields|
      invariant max == MaxFieldId(form.fields[..i])
    {
      assert form.fields[..i + 1][..i] == form.fields[..i];
      var val := form.fields[i].id;
      if val > max {
        max := val;
      }
    }
    assert form.fields[..|form.fields|] == form.fields;
    MaxFieldIdBounds(form.fields);
    MaxFieldIdAttained(form.fields);
  }
}
