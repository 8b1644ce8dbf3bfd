/** `set_dang_id_touched_fields`: the bookkeeping of the fields the plugin fills in. */
module Touched {
  import opened Text

  const DangField: string := "identifier:dang"

  /** The plugin's declared `touched_fields`. */
  const DeclaredFields: set<string> :=
    {"title", "authors", "identifier:dang", "rating", "comments", "publisher", "pubdate",
     "languages", "series", "tags"}

  /**
   * Every field starting with "identifier:dang" is dropped, then exactly
   * "identifier:dang" is added back.
   */
  function SetDangIdTouchedFields(fields: set<string>): (r: set<string>)
    ensures DangField in r
    ensures forall x :: x in r && x != DangField ==> x in fields && !StartsWith(x, DangField)
    ensures forall x :: x in fields && !StartsWith(x, DangField) ==> x in r
  {
    (set x | x in fields && !StartsWith(x, DangField)) + {DangField}
  }

  /** Running the bookkeeping again (as `save_settings` does) changes nothing. */
  lemma SetDangIdIdempotent(fields: set<string>)
    ensures SetDangIdTouchedFields(SetDangIdTouchedFields(fields)) == SetDangIdTouchedFields(fields)
  {
  }

  /** The declared fields are already in the shape the bookkeeping produces. */
  lemma DeclaredFieldsFixed()
    ensures SetDangIdTouchedFields(DeclaredFields) == DeclaredFields
  {
  }

  /** A longer key sharing the prefix is dropped as well. */
  lemma LongerDangKeyDropped(fields: set<string>)
    ensures "identifier:dangdang" !in SetDangIdTouchedFields(fields)
  {
    assert StartsWith("identifier:dangdang", DangField);
  }
}
