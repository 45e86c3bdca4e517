/** The inline helpers of the kernel's `file.h`: the tagged word that packs a
    `struct file` pointer with two flag bits, the release decisions of
    `fdput`, `fdput_pos` and `fput_light`, and the scope-exit rules of the
    `fput` free guard and of the `get_unused_fd` class with `take_fd`.

    The out-of-line calls (`fput`, `__f_unlock_pos`, `put_unused_fd`,
    `fd_install`) are not modelled; each call is an event appended to a
    trace. Pointers and `unsigned long` are 64-bit words. */
module FileFd {

  /** `FDPUT_FPUT`: the reference must be dropped with `fput`. */
  const FdputFput: bv64 := 1
  /** `FDPUT_POS_UNLOCK`: the file position lock must be released. */
  const FdputPosUnlock: bv64 := 2
  /** The two low bits of the word carry the flags. */
  const TagMask: bv64 := 3

  /** `MAX_ERRNO` of `err.h`: error pointers are the top 4095 addresses. */
  const MaxErrno: bv64 := 4095
  /** The lowest error pointer, `(unsigned long)-MAX_ERRNO`. */
  const ErrThreshold: bv64 := 0xFFFF_FFFF_FFFF_F001
  const EBADF: int := 9

  /** `struct fd`: the file pointer and the flags. The flags field is an
      `unsigned int` in the source; it only ever holds the two low bits of
      a word, which it keeps exactly, so it is a word here too. */
  datatype Fd = Fd(file: bv64, flags: bv64)

  /** The calls the helpers make, in order. */
  datatype Event =
    | Fput(file: bv64)
    | UnlockPos(file: bv64)
    | PutUnusedFd(fd: int)
    | FdInstall(fd: int, file: bv64)

  // ---------------------------------------------------------------------
  // The tagged word

  /** `__to_fd`: split a word into its aligned pointer (`v & ~3`) and its
      two flag bits (`v & 3`). */
  function ToFd(v: bv64): (fd: Fd)
    ensures fd.flags < 4
    ensures fd.file & TagMask == 0
  {
    Fd(v & 0xFFFF_FFFF_FFFF_FFFC, v & TagMask)
  }

  /** Nothing is lost by `__to_fd`: the pointer and the flags are disjoint
      bits and together give the word back. */
  lemma ToFdRecomposes(v: bv64)
    ensures ToFd(v).file | ToFd(v).flags == v
    ensures ToFd(v).file & ToFd(v).flags == 0
  {
  }

  /** Packing a 4-byte-aligned pointer with flags below 4 and unpacking it
      with `__to_fd` gives both parts back. */
  lemma ToFdRoundTrip(p: bv64, f: bv64)
    requires p & TagMask == 0 && f < 4
    ensures ToFd(p | f) == Fd(p, f)
  {
  }

  // ---------------------------------------------------------------------
  // Releasing a reference

  /** `fput_light`: drop the reference exactly when `fput_needed` is nonzero. */
  function FputLight(file: bv64, fputNeeded: int): (r: seq<Event>)
    ensures |r| <= 1
    ensures forall e :: e in r ==> e == Fput(file)
    ensures |r| == 1 <==> fputNeeded != 0
  {
    if fputNeeded != 0 then [Fput(file)] else []
  }

  /** `fdput`: one `fput` of the file when `FDPUT_FPUT` is set, none otherwise. */
  function Fdput(fd: Fd): (r: seq<Event>)
    ensures |r| <= 1
    ensures forall e :: e in r ==> e == Fput(fd.file)
    ensures |r| == 1 <==> fd.flags & FdputFput != 0
  {
    if fd.flags & FdputFput != 0 then [Fput(fd.file)] else []
  }

  /** `fdput_pos`: release the position lock when `FDPUT_POS_UNLOCK` is
      set, and only then make the `fdput` decision. */
  function FdputPos(fd: Fd): (r: seq<Event>)
    ensures |Fdput(fd)| <= |r| <= |Fdput(fd)| + 1
    ensures r[|r| - |Fdput(fd)|..] == Fdput(fd)
    ensures forall i :: 0 <= i < |r| - |Fdput(fd)| ==> r[i] == UnlockPos(fd.file)
    ensures UnlockPos(fd.file) in r <==> fd.flags & FdputPosUnlock != 0
  {
    (if fd.flags & FdputPosUnlock != 0 then [UnlockPos(fd.file)] else []) + Fdput(fd)
  }

  /** What a word handed out by `__fdget_pos` costs to release: the low bit
      of the word asks for the `fput`, the next bit for the unlock, and the
      unlock comes first. `fdput` of a word from `__fdget` or
      `__fdget_raw` is the last part alone. */
  lemma PosWordRelease(v: bv64)
    ensures FdputPos(ToFd(v)) ==
      (if v & 2 != 0 then [UnlockPos(v & 0xFFFF_FFFF_FFFF_FFFC)] else [])
      + (if v & 1 != 0 then [Fput(v & 0xFFFF_FFFF_FFFF_FFFC)] else [])
    ensures Fdput(ToFd(v)) == (if v & 1 != 0 then [Fput(v & 0xFFFF_FFFF_FFFF_FFFC)] else [])
  {
    var fd := ToFd(v);
    assert fd.flags & FdputFput != 0 <==> v & 1 != 0;
    assert fd.flags & FdputPosUnlock != 0 <==> v & 2 != 0;
  }

  // ---------------------------------------------------------------------
  // Scope-exit guards

  /** `IS_ERR_OR_NULL`: NULL or one of the top `MAX_ERRNO` addresses. */
  predicate IsErrOrNull(ptr: bv64) {
    ptr == 0 || ptr >= ErrThreshold
  }

  /** `ERR_PTR(-e)`: the pointer that encodes error number e. */
  function ErrPtr(e: bv64): bv64
    requires 1 <= e <= MaxErrno
  {
    0 - e
  }

  /** The error pointers are exactly the words at or above the threshold:
      each error number encodes to one of them, and each of them decodes
      to an error number. */
  lemma ErrPtrRange(e: bv64, ptr: bv64)
    ensures 1 <= e <= MaxErrno ==> ErrPtr(e) >= ErrThreshold && 0 - ErrPtr(e) == e
    ensures ptr >= ErrThreshold ==> 1 <= 0 - ptr <= MaxErrno && ErrPtr(0 - ptr) == ptr
  {
  }

  /** `DEFINE_FREE(fput)`: at scope exit a file pointer is dropped unless it
      is NULL or an error pointer. */
  function FreeFput(ptr: bv64): (r: seq<Event>)
    ensures |r| <= 1
    ensures forall e :: e in r ==> e == Fput(ptr)
    ensures r == [] <==> ptr == 0 || ptr >= ErrThreshold
  {
    if !IsErrOrNull(ptr) then [Fput(ptr)] else []
  }

  /** No error pointer and no NULL is ever passed to `fput` by the guard. */
  lemma FreeFputSkipsErrors(e: bv64)
    requires 1 <= e <= MaxErrno
    ensures FreeFput(ErrPtr(e)) == [] && FreeFput(0) == []
  {
    ErrPtrRange(e, 0);
  }

  /** Scope exit of `CLASS(get_unused_fd)`: a reserved descriptor (one that
      is not negative) is given back, an error code is not. */
  function GetUnusedFdExit(fd: int): (r: seq<Event>)
    ensures |r| <= 1
    ensures forall e :: e in r ==> e == PutUnusedFd(fd)
    ensures r == [] <==> fd < 0
  {
    if fd >= 0 then [PutUnusedFd(fd)] else []
  }

  /** `take_fd(fd)`: yield the descriptor and leave `-EBADF` in the
      variable the class will clean up. */
  function TakeFd(fd: int): (r: (int, int))
    ensures r.0 == fd && r.1 == -EBADF
    ensures GetUnusedFdExit(r.1) == []
  {
    (fd, -EBADF)
  }

  /** The usage the header documents: reserve a descriptor, open a file,
      install it and return `take_fd(fd)`. `openOk` says whether the open
      succeeded, with `file` the file on success and `openErr` the error
      returned otherwise. Result: the returned value and the calls made. */
  function ReserveOpenInstall(fd: int, openOk: bool, file: bv64, openErr: int): (r: (int, seq<Event>))
    requires openErr < 0
    ensures fd < 0 ==> r == (fd, [])
    ensures fd >= 0 && !openOk ==> r == (openErr, [PutUnusedFd(fd)])
    ensures fd >= 0 && openOk ==> r == (fd, [FdInstall(fd, file)])
  {
    if fd < 0 then (fd, GetUnusedFdExit(fd))
    else if !openOk then (openErr, GetUnusedFdExit(fd))
    else
      var taken := TakeFd(fd);
      assert [FdInstall(fd, file)] + GetUnusedFdExit(taken.1) == [FdInstall(fd, file)];
      (taken.0, [FdInstall(fd, file)] + GetUnusedFdExit(taken.1))
  }

  /** Along every path of the documented usage a reserved descriptor is
      either installed or given back, exactly once and never both, and a
      negative return value reports the failure. */
  lemma ReservedFdSettledOnce(fd: int, openOk: bool, file: bv64, openErr: int)
    requires openErr < 0 && fd >= 0
    ensures var r := ReserveOpenInstall(fd, openOk, file, openErr);
      && |r.1| == 1
      && (r.1[0] == PutUnusedFd(fd) <==> r.0 < 0)
      && (r.1[0] == FdInstall(fd, file) <==> r.0 == fd)
  {
  }
}
