/**
 * `Handle` and `TaskId`: opaque 64-bit tokens whose only user-side meaning
 * is that the raw value 0 is the invalid one.
 */
module Handles {
  import opened MachineInts

  /** A capability token naming a kernel object. */
  datatype Handle = Handle(id: uint64)
  {
    /** `Handle::invalid()`: the kernel is handed 0 for it. */
    static function Invalid(): (invalid: Handle)
      ensures invalid.Raw() == 0
    {
      Handle(0)
    }

    /**
     * `is_valid`: the raw value differs from that of `invalid()`, so exactly
     * `invalid()` is rejected, and it is the raw value 0 that is rejected.
     */
    function IsValid(): (valid: bool)
      ensures valid <==> this != Invalid()
      ensures valid <==> Raw() != 0
    {
      id != Invalid().id
    }

    /** `raw`: the value passed to the kernel; it rebuilds the handle. */
    function Raw(): (r: uint64)
      ensures Handle(r) == this
    {
      id
    }
  }

  /** A task identifier. */
  datatype TaskId = TaskId(id: uint64)
  {
    /** `TaskId::invalid()`: the kernel is handed 0 for it. */
    static function Invalid(): (invalid: TaskId)
      ensures invalid.Raw() == 0
    {
      TaskId(0)
    }

    /**
     * `is_valid`: the raw value differs from that of `invalid()`, so exactly
     * `invalid()` is rejected, and it is the raw value 0 that is rejected.
     */
    function IsValid(): (valid: bool)
      ensures valid <==> this != Invalid()
      ensures valid <==> Raw() != 0
    {
      id != Invalid().id
    }

    /** `raw`: the value passed to the kernel; it rebuilds the identifier. */
    function Raw(): (r: uint64)
      ensures TaskId(r) == this
    {
      id
    }
  }

  /**
   * `invalid()` is never valid, and it is the only token that is not: exactly
   * the raw value 0 is rejected.
   */
  lemma InvalidIsUnique(h: Handle, t: TaskId)
    ensures !Handle.Invalid().IsValid() && Handle.Invalid().Raw() == 0
    ensures !TaskId.Invalid().IsValid() && TaskId.Invalid().Raw() == 0
    ensures !h.IsValid() <==> h == Handle.Invalid()
    ensures !t.IsValid() <==> t == TaskId.Invalid()
  {
  }
}
