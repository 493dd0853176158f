/** Values the other modules share. */
module Basics {
  type Byte = b: int | 0 <= b < 256

  datatype Option<+T> = None | Some(value: T)

  /** The characters that `\s` matches and `str.strip` removes. */
  predicate Whitespace(c: char) {
    || '\t' <= c <= '\r' || '\U{1c}' <= c <= ' ' || c == '\U{85}' || c == '\U{a0}' || c == '\U{1680}'
    || '\U{2000}' <= c <= '\U{200a}' || c == '\U{2028}' || c == '\U{2029}' || c == '\U{202f}' || c == '\U{205f}'
    || c == '\U{3000}'
  }

  /** The same by code point. */
  lemma WhitespaceIs(c: char)
    ensures Whitespace(c) <==>
      || 9 <= c as int <= 13 || 28 <= c as int <= 32 || 8192 <= c as int <= 8202
      || c as int in {133, 160, 5760, 8232, 8233, 8239, 8287, 12288}
  {
  }
}
