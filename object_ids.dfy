/**
 * MongoDB ObjectIds as the controllers see them: the text of a route
 * parameter, checked with `mongoose.Types.ObjectId.isValid` and cast to an id.
 * An id is kept in its canonical form, 24 lower-case hexadecimal digits.
 */
module ObjectIds {
  import opened Wrappers
  import opened Text

  predicate IsHexDigit(c: char) {
    '0' <= c <= '9' || 'a' <= c <= 'f' || 'A' <= c <= 'F'
  }

  predicate IsLowerHexDigit(c: char) {
    '0' <= c <= '9' || 'a' <= c <= 'f'
  }

  /** The hexadecimal form `isValid` accepts: exactly 24 hexadecimal digits, in either case. */
  predicate IsValid(s: string) {
    |s| == 24 && forall i :: 0 <= i < |s| ==> IsHexDigit(s[i])
  }

  predicate IsCanonical(s: string) {
    |s| == 24 && forall i :: 0 <= i < |s| ==> IsLowerHexDigit(s[i])
  }

  type ObjectId = s: string | IsCanonical(s) witness "000000000000000000000000"

  /**
   * Casts the text of a parameter to an id: `None` when `isValid` rejects it,
   * otherwise the id whose `toString()` is the lower-cased text.
   */
  function Parse(s: string): (r: Option<ObjectId>)
    ensures r.Some? <==> IsValid(s)
    ensures r.Some? ==> r.value == ToLower(s)
  {
    if IsValid(s) then
      var t := ToLower(s);
      assert forall i :: 0 <= i < |t| ==> IsLowerHexDigit(t[i]) by {
        forall i | 0 <= i < |t| ensures IsLowerHexDigit(t[i]) {
          assert IsHexDigit(s[i]);
        }
      }
      Some(t)
    else None
  }

  /** Every id reads back as itself from its own text. */
  lemma ParseOwnText(id: ObjectId)
    ensures Parse(id) == Some(id)
  {
    assert IsValid(id);
    assert forall i :: 0 <= i < |id| ==> !IsUpper(id[i]);
    ToLowerLowers(id);
  }
}
