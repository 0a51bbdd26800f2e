/**
 * The two memory checks around the WebAssembly instance: `MemoryGuard.check`,
 * which compares the size of the instance's linear memory with a ceiling, and
 * the `memory_guard(ptr, size)` import, which bounds-checks one access.
 * The memory's current `byteLength` is a parameter; neither check writes memory.
 */
module MemoryGuard {
  import opened Text

  const BytesPerMB: int := 1024 * 1024
  const DefaultLimitMB: int := 10

  /** A guard holds only its byte limit; the instance it reads is passed to `Check`. */
  datatype Guard = Guard(limit: int)

  datatype Outcome = Pass | Fail(message: string)

  /** `new MemoryGuard(instance, limitMB)`. */
  function NewGuard(limitMB: int): (g: Guard)
    ensures g.limit == limitMB * BytesPerMB
    ensures g.limit / BytesPerMB == limitMB && g.limit % BytesPerMB == 0
  {
    Guard(limitMB * BytesPerMB)
  }

  /** `new MemoryGuard(instance)`: the default ceiling of 10 MB. */
  function DefaultGuard(): (g: Guard)
    ensures g.limit == 10_485_760
  {
    NewGuard(DefaultLimitMB)
  }

  /** `check(ptr, size)`: fails exactly when the memory is strictly larger than the limit. */
  function Check(g: Guard, byteLength: nat, ptr: int, size: int): (o: Outcome)
    ensures o.Fail? <==> byteLength > g.limit
    ensures o.Fail? ==> o.message == "Memory limit exceeded (" + NatToString(byteLength) + " > "
                                       + IntToString(g.limit) + ")"
  {
    if byteLength > g.limit then
      Fail("Memory limit exceeded (" + NatToString(byteLength) + " > " + IntToString(g.limit) + ")")
    else Pass
  }

  /** `check` ignores the access it is told about: its answer is the same for every `ptr` and `size`. */
  lemma CheckIgnoresAccess(g: Guard, byteLength: nat, ptr: int, size: int, ptr': int, size': int)
    ensures Check(g, byteLength, ptr, size) == Check(g, byteLength, ptr', size')
  {
  }

  /** With the default guard, memory of exactly 10 MB passes and one byte more fails. */
  lemma DefaultLimitIsInclusive(ptr: int, size: int)
    ensures Check(DefaultGuard(), 10_485_760, ptr, size) == Pass
    ensures Check(DefaultGuard(), 10_485_761, ptr, size).Fail?
  {
  }

  /** The `memory_guard` import: an access of `size` bytes at `ptr` must end within the memory. */
  function AccessGuard(byteLength: nat, ptr: int, size: int): (o: Outcome)
    ensures o.Fail? <==> ptr + size > byteLength
    ensures o.Fail? ==> o.message == "Memory access violation at " + IntToString(ptr)
  {
    if ptr + size > byteLength then Fail("Memory access violation at " + IntToString(ptr))
    else Pass
  }

  /** Accesses that end exactly at the end of memory pass, including an empty one at the end. */
  lemma AccessAtEndAllowed(byteLength: nat, ptr: int)
    requires ptr <= byteLength
    ensures AccessGuard(byteLength, ptr, byteLength - ptr) == Pass
    ensures AccessGuard(byteLength, byteLength, 0) == Pass
    ensures AccessGuard(byteLength, byteLength, 1).Fail?
  {
  }

  /** The import checks only the upper end: an access before the start of memory, at a negative `ptr`, passes. */
  lemma AccessBelowStartPasses(byteLength: nat, size: nat)
    requires size <= byteLength
    ensures AccessGuard(byteLength, -1, size) == Pass
  {
  }
}
