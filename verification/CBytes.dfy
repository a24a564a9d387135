/** Bytes and C strings, shared by every other module. */
module CBytes {

  datatype Option<+T> = None | Some(value: T)

  newtype byte = x: int | 0 <= x < 256

  const NUL: byte := 0
  const CR: byte := 13
  const LF: byte := 10
  const SP: byte := 32

  /** The text of a NUL-terminated string; the terminator itself is not an element. */
  type CString = s: seq<byte> | NUL !in s

  /** Index of the first byte of `s` that lies in `stop`, or |s|: C's `strcspn`. */
  function Cspn(s: seq<byte>, stop: set<byte>): (n: nat)
    ensures n <= |s|
    ensures forall i :: 0 <= i < n ==> s[i] !in stop
    ensures n < |s| ==> s[n] in stop
  {
    if s == [] || s[0] in stop then 0 else 1 + Cspn(s[1..], stop)
  }

  /** Number of leading bytes of `s` that lie in `skip`: C's `strspn`. */
  function Spn(s: seq<byte>, skip: set<byte>): (n: nat)
    ensures n <= |s|
    ensures forall i :: 0 <= i < n ==> s[i] in skip
    ensures n < |s| ==> s[n] !in skip
  {
    if s == [] || s[0] !in skip then 0 else 1 + Spn(s[1..], skip)
  }

  /** The C string that starts at the beginning of memory `m`. */
  function CStr(m: seq<byte>): (t: CString)
    ensures |t| <= |m| && t == m[..|t|]
    ensures |t| < |m| ==> m[|t|] == NUL
  {
    m[..Cspn(m, {NUL})]
  }

  /** A text that holds no NUL is the C string of any memory that continues it with a NUL. */
  lemma CStrUnique(m: seq<byte>, t: CString)
    requires |t| < |m| && m[..|t|] == t && m[|t|] == NUL
    ensures CStr(m) == t
  {
    assert forall i :: 0 <= i < |t| ==> m[i] == t[i];
  }

  /** `p` occurs in `s` at offset `k`: C's `strncmp(s + k, p, strlen(p)) == 0`. */
  predicate At(s: seq<byte>, k: nat, p: seq<byte>) {
    k + |p| <= |s| && s[k..k + |p|] == p
  }

  /** `strncmp(s, p, strlen(p)) == 0`. */
  predicate StartsWith(s: seq<byte>, p: seq<byte>) {
    p <= s
  }
}
