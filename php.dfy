/**
 * The few PHP language primitives the scan-login core relies on: `empty()` on
 * a string, `strtoupper`, `ctype_alnum`, and the shapes of "a value or null"
 * and "a value or a thrown exception".
 */
module Php {

  /** A value, or PHP's null. */
  datatype Option<+T> = None | Some(value: T)

  /**
   * The message carried by a thrown exception or passed to `app('json')->fail`.
   * CRMEB accepts both a text and a numeric message code (400140, 400595, ...).
   */
  datatype Message = Text(text: string) | Code(code: int)

  /** The result of a call that either returns a value or throws. */
  datatype Outcome<+T> = Ok(value: T) | Threw(message: Message)

  /** `empty($s)` for a string `$s`: PHP treats both "" and "0" as empty. */
  predicate Empty(s: string)
    ensures Empty(s) <==> |s| < 2 && forall i :: 0 <= i < |s| ==> s[i] == '0'
  {
    s == "" || s == "0"
  }

  /** `strtoupper` on one character: only the ASCII letters a-z change. */
  function UpperChar(c: char): (u: char)
    ensures 'a' <= c <= 'z' ==> 'A' <= u <= 'Z' && u as int - 'A' as int == c as int - 'a' as int
    ensures !('a' <= c <= 'z') ==> u == c
  {
    if 'a' <= c <= 'z' then (c as int - 'a' as int + 'A' as int) as char else c
  }

  /** `strtoupper($s)`, which is locale-independent ASCII upper-casing. */
  function ToUpper(s: string): (u: string)
    ensures |u| == |s|
    ensures forall i :: 0 <= i < |s| ==> u[i] == UpperChar(s[i])
  {
    seq(|s|, i requires 0 <= i < |s| => UpperChar(s[i]))
  }

  /** An ASCII letter or digit. */
  predicate AlnumChar(c: char)
  {
    'a' <= c <= 'z' || 'A' <= c <= 'Z' || '0' <= c <= '9'
  }

  /**
   * `ctype_alnum($s)` for a string: non-empty and made of letters and digits
   * only, so it holds no separator such as '.', '/' or '\\'.
   */
  predicate CtypeAlnum(s: string)
    ensures CtypeAlnum(s) ==> |s| > 0 && '.' !in s && '/' !in s && '\\' !in s
  {
    |s| > 0 && forall i :: 0 <= i < |s| ==> AlnumChar(s[i])
  }
}
