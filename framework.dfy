/**
 * Stand-ins for framework behaviour the controller calls but does not
 * define: the unique-name helper used when adding a form field, and the
 * family of form-field classes that extend the value-list base class.
 */
module Framework {

  /** The length of the longest name in `names` (0 when there is none). */
  function MaxLength(names: seq<string>): (n: nat)
    ensures forall i :: 0 <= i < |names| ==> |names[i]| <= n
  {
    if names == [] then 0
    else
      var rest := MaxLength(names[1..]);
      if |names[0]| > rest then |names[0]| else rest
  }

  /**
   * A name for a new form element derived from `desired` that no existing
   * element uses. The desired name is kept when free.
   */
  function UniqueName(names: seq<string>, desired: string): (r: string)
    ensures r !in names
    ensures desired !in names ==> r == desired
    ensures desired <= r
    decreases MaxLength(names) + 1 - |desired|
  {
    if desired !in names then desired
    else
      var r := UniqueName(names, desired + "_");
      assert desired <= desired + "_";
      r
  }

  /** The form-field kinds whose class extends the value-list base class. */
  const ValueListKinds: set<string> := {"DropDown", "Radio", "CheckboxList"}

  predicate IsValueList(kind: string)
  {
    kind in ValueListKinds
  }
}
