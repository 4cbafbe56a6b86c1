/** Small value types and string predicates shared by the extension and the worker models. */
module Common {

  /** An absent value (JavaScript `null`/`undefined`, Python `None`) or a present one. */
  datatype Option<+T> = None | Some(value: T)

  /** `s.startsWith(prefix)` in JavaScript, `s.startswith(prefix)` in Python. */
  predicate StartsWith(s: string, prefix: string) {
    |prefix| <= |s| && s[..|prefix|] == prefix
  }

  /** `sub` occurs in `s` starting at index `i`. */
  predicate OccursAt(s: string, sub: string, i: int) {
    0 <= i <= |s| - |sub| && s[i..i + |sub|] == sub
  }

  /** Python's `sub in s`: `sub` occurs somewhere in `s` as a contiguous piece. */
  predicate Contains(s: string, sub: string) {
    exists i | 0 <= i <= |s| - |sub| :: OccursAt(s, sub, i)
  }

  /** Truthiness of an optional string, as `if (x)` / `if x:` test it: present and non-empty. */
  predicate Truthy(x: Option<string>) {
    x.Some? && x.value != ""
  }
}
