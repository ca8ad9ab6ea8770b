/** The string operations that several of the modelled scripts share. */
module Strings {

  /** The characters `str.strip()` removes. */
  predicate IsSpace(c: char) {
    || '\t' <= c <= '\r' || '\U{001C}' <= c <= ' ' || c == '\U{0085}' || c == '\U{00A0}' || c == '\U{1680}'
    || '\U{2000}' <= c <= '\U{200A}' || c == '\U{2028}' || c == '\U{2029}' || c == '\U{202F}'
    || c == '\U{205F}' || c == '\U{3000}'
  }

  predicate StartsWith(s: string, prefix: string) {
    prefix <= s
  }

  function DropWhile(s: string, p: char -> bool): string {
    if s != "" && p(s[0]) then DropWhile(s[1..], p) else s
  }

  function DropLastWhile(s: string, p: char -> bool): string {
    if s != "" && p(s[|s| - 1]) then DropLastWhile(s[..|s| - 1], p) else s
  }

  function Strip(s: string): string {
    DropLastWhile(DropWhile(s, IsSpace), IsSpace)
  }
}
