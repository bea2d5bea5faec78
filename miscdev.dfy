/**
 * Miscellaneous-device registration in the verification build of the kernel
 * crate: the fixed-capacity table that stands in for the kernel's registry,
 * and the one-shot `Registration` state machine.
 *
 * `misc_register` itself is not part of this model; its return code is a
 * parameter of `Register` (the verification build uses 0 in its place).
 */
module Miscdev {
  import opened Wrappers
  import opened Errno

  /** `MAX_REGISTRATIONS` */
  const MAX_REGISTRATIONS: nat := 4

  /** `MISC_DYNAMIC_MINOR`: asks the kernel to pick a minor number. */
  const MISC_DYNAMIC_MINOR: int := 255

  /** A slot holding an entry that satisfies `p`. */
  predicate Matches<T>(slot: Option<T>, p: T -> bool) {
    slot.Some? && p(slot.value)
  }

  /** `Registrations<T>`: an append-only table of at most `MAX_REGISTRATIONS` entries. */
  class Registrations<T> {
    const list: array<Option<T>>
    var registered: nat

    /** The first `registered` slots are filled, the others empty. */
    ghost predicate Valid()
      reads this, list
    {
      list.Length == MAX_REGISTRATIONS && registered <= MAX_REGISTRATIONS
      && forall i :: 0 <= i < MAX_REGISTRATIONS ==> (list[i].Some? <==> i < registered)
    }

    /** `Registrations::new`: nothing registered, every slot empty. */
    constructor ()
      ensures Valid() && fresh(list)
      ensures registered == 0 && list[..] == [None, None, None, None]
    {
      list := new Option<T>[MAX_REGISTRATIONS](_ => None);
      registered := 0;
    }

    /**
     * `add`: stores `r` in the first empty slot and returns that slot's
     * index. A full table fails the `assert!` (`None`) and is left as it was.
     */
    method Add(r: T) returns (index: Option<int>)
      requires Valid()
      modifies this, list
      ensures Valid()
      ensures old(registered) < MAX_REGISTRATIONS ==>
        index == Some(old(registered)) && registered == old(registered) + 1
        && list[..] == old(list[..])[old(registered) := Some(r)]
      ensures old(registered) == MAX_REGISTRATIONS ==>
        index == None && registered == old(registered) && list[..] == old(list[..])
    {
      if registered >= MAX_REGISTRATIONS {
        return None;
      }
      var i := registered;
      list[i] := Some(r);
      registered := registered + 1;
      index := Some(i);
    }

    /**
     * `find`: the entry of lowest index among the registered ones that
     * satisfies `p`, or `None` when none does.
     */
    method Find(p: T -> bool) returns (found: Option<T>)
      requires Valid()
      ensures found.Some? ==>
        p(found.value) &&
        exists i :: 0 <= i < registered && list[i] == found
          && forall j :: 0 <= j < i ==> !Matches(list[j], p)
      ensures found.None? ==> forall i :: 0 <= i < registered ==> !Matches(list[i], p)
    {
      for i := 0 to registered
        invariant forall j :: 0 <= j < i ==> !Matches(list[j], p)
      {
        if list[i].Some? && p(list[i].value) {
          return list[i];
        }
      }
      return None;
    }
  }

  /** `Registration<T>`: a misc device, its `miscdevice` fields, and the context its files share. */
  class Registration<T> {
    var registered: bool
    /** `mdev.fops`: whether the file-operations table has been installed. */
    var fopsInstalled: bool
    /** `mdev.name`: `None` while null. */
    var name: Option<string>
    /** `mdev.minor` */
    var minor: int
    const context: T

    /** `Registration::new`: not registered, a zeroed `miscdevice`, `context` kept as given. */
    constructor New(context: T)
      ensures !registered && !fopsInstalled && name == None && minor == 0
      ensures this.context == context
    {
      registered := false;
      fopsInstalled := false;
      name := None;
      minor := 0;
      this.context := context;
    }

    /**
     * `register`: fails with `EINVAL` if already registered. Otherwise
     * fills in the `miscdevice` (the dynamic minor when none is given), then
     * registers it unless `misc_register` returned the error `status`.
     */
    method Register(name: string, minor: Option<int>, status: int) returns (r: KResult<()>)
      modifies this
      ensures old(registered) ==>
        r == Err(EINVAL) && registered && fopsInstalled == old(fopsInstalled)
        && this.name == old(this.name) && this.minor == old(this.minor)
      ensures !old(registered) ==>
        fopsInstalled && this.name == Some(name)
        && this.minor == (if minor.Some? then minor.value else MISC_DYNAMIC_MINOR)
      ensures !old(registered) && status < 0 ==> r == Err(FromKernelErrno(status)) && !registered
      ensures !old(registered) && status >= 0 ==> r == Ok(()) && registered
    {
      if registered {
        return Err(EINVAL);
      }
      fopsInstalled := true;
      this.name := Some(name);
      this.minor := minor.GetOr(MISC_DYNAMIC_MINOR);
      var ret := status;
      if ret < 0 {
        return Err(FromKernelErrno(ret));
      }
      registered := true;
      r := Ok(());
    }

    /** With the status the verification build uses, the second `register` is the one that fails. */
    method RegisterTwice(name: string, minor: Option<int>) returns (first: KResult<()>, second: KResult<()>)
      requires !registered
      modifies this
      ensures first == Ok(()) && second == Err(EINVAL) && registered
      ensures this.name == Some(name)
    {
      first := Register(name, minor, 0);
      second := Register(name, minor, 0);
    }
  }

  /**
   * `new_pinned`: allocate a `Registration` (`allocOk` false is an
   * allocation failure, `ENOMEM`) and register it, passing on either error.
   */
  method NewPinned<T>(name: string, minor: Option<int>, context: T, allocOk: bool, status: int)
    returns (r: KResult<Registration<T>>)
    ensures !allocOk ==> r == Err(ENOMEM)
    ensures allocOk && status < 0 ==> r == Err(FromKernelErrno(status))
    ensures allocOk && status >= 0 ==> r.Ok?
    ensures r.Ok? ==>
      fresh(r.value) && r.value.registered && r.value.context == context && r.value.name == Some(name)
      && r.value.minor == (if minor.Some? then minor.value else MISC_DYNAMIC_MINOR)
  {
    if !allocOk {
      return Err(ENOMEM);
    }
    var reg := new Registration.New(context);
    var res := reg.Register(name, minor, status);
    if res.Err? {
      return Err(res.error);
    }
    r := Ok(reg);
  }
}
