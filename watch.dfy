/** The readiness watcher of watch.c: a growable array of descriptors whose
    prefix fds[0..len) is the membership, the largest watched descriptor, and
    the two flag sets handed to select (readable and errored). */
module Watch {
  import opened WatchSpec

  /** Largest value of the unsigned int fields len and max. */
  const UINT_MAX: nat := 0xFFFF_FFFF

  /** realloc: a fresh buffer of capacity n that starts with the entries of a. */
  method Realloc(a: array<int>, n: nat) returns (b: array<int>)
    requires a.Length <= n
    ensures fresh(b) && b.Length == n && b[..a.Length] == a[..]
  {
    b := new int[n];
    var k := 0;
    while k < a.Length
      invariant k <= a.Length
      invariant b[..k] == a[..k]
    {
      b[k] := a[k];
      k := k + 1;
    }
  }

  class Watcher {
    var fds: array<int>
    var highest: int
    var len: nat
    var max: nat
    var readSet: set<int>
    var errorSet: set<int>

    /** The struct's invariant: the array has capacity max, which is positive
        and fits an unsigned int, the live prefix fits in it, and highest is
        the tracked maximum of that prefix. */
    ghost predicate Valid()
      reads this, fds
    {
      0 < max <= UINT_MAX && fds.Length == max && len <= max &&
      highest == Highest(fds[..len])
    }

    /** The watched descriptors, in array order, duplicates included. */
    ghost function Members(): (m: seq<int>)
      reads this, fds
      requires Valid()
    {
      fds[..len]
    }

    /** new_watcher: an empty watcher with room for n descriptors and no flags
        set. A zero capacity could never be doubled by Watch. */
    constructor (n: nat)
      requires 0 < n <= UINT_MAX
      ensures Valid() && fresh(fds)
      ensures Members() == [] && len == 0 && max == n && highest == -1
      ensures readSet == {} && errorSet == {}
    {
      readSet, errorSet := {}, {};
      max := n;
      len := 0;
      highest := -1;
      fds := new int[n];
    }

    /** watch_fd: appends fd after the live prefix, doubling the capacity first
        when the array is full, and clears any stale flags for fd. The second
        requires is the assertion that the doubled unsigned capacity exceeds
        len, which fails once doubling wraps around. */
    method Watch(fd: int)
      requires Valid()
      requires len < max || 2 * max <= UINT_MAX
      modifies this, fds
      ensures Valid()
      ensures Members() == old(Members()) + [fd]
      ensures len == old(len) + 1 && len <= max
      ensures max == (if old(len) >= old(max) then 2 * old(max) else old(max))
      ensures old(len) < old(max) ==> fds == old(fds) && fds[..] == old(fds[..])[old(len) := fd]
      ensures old(len) >= old(max) ==> fresh(fds)
      ensures highest == (if fd > old(highest) then fd else old(highest))
      ensures readSet == old(readSet) - {fd} && errorSet == old(errorSet) - {fd}
    {
      ghost var before := fds[..len];
      if len >= max {
        var grown := Realloc(fds, 2 * max);
        max := 2 * max;
        fds := grown;
      }
      fds[len] := fd;
      len := len + 1;

      readSet := readSet - {fd};
      errorSet := errorSet - {fd};

      if fd > highest {
        highest := fd;
      }
      assert fds[..len] == before + [fd];
      WatchedHighest(before, fd);
    }

    /** unwatch_fd: removes the first occurrence of fd by moving the last live
        element into its slot, clears its flags, and rescans for the maximum
        only when fd was the maximum. A descriptor that is not watched changes
        nothing.
        The source copies fds[len] rather than fds[len - 1] (watch.c:61, one
        past the last live element); this method follows the comment above
        that line, and RemoveAsWritten in WatchSpec models the line as written. */
    method Unwatch(fd: int)
      requires Valid()
      modifies this, fds
      ensures Valid() && fds == old(fds) && max == old(max)
      ensures Members() == Unwatched(old(Members()), fd)
      ensures fd !in old(Members()) ==>
        fds[..] == old(fds[..]) && len == old(len) && highest == old(highest) &&
        readSet == old(readSet) && errorSet == old(errorSet)
      ensures fd in old(Members()) ==>
        len == old(len) - 1 &&
        fds[..] == old(fds[..])[Find(old(Members()), fd) := old(fds[len - 1])] &&
        readSet == old(readSet) - {fd} && errorSet == old(errorSet) - {fd}
    {
      ghost var before := fds[..len];
      var i := IndexOf(fd);
      if i == len {
        return;
      }

      RemoveSlot(i);
      assert fds[..len] == Unwatched(before, fd);

      readSet := readSet - {fd};
      errorSet := errorSet - {fd};

      if highest == fd {
        Rescan();
      } else {
        UnwatchedHighest(before, fd);
      }
    }

    /** Replaces the element in slot i with the last live one and shortens the
        live prefix by one. */
    method RemoveSlot(i: nat)
      requires Valid() && i < len
      modifies this`len, fds
      ensures len == old(len) - 1
      ensures fds[..] == old(fds[..])[i := old(fds[len - 1])]
      // the new live prefix, stated through the specification's removal
      ensures fds[..len] == SwapRemove(old(fds[..len]), i)
    {
      fds[i] := fds[len - 1];
      len := len - 1;
    }

    /** The search loop of unwatch_fd: the index of the first live slot that
        holds fd, or len when fd is not watched. */
    method IndexOf(fd: int) returns (i: nat)
      requires Valid()
      ensures i == Find(Members(), fd)
      ensures i <= len && (i < len ==> fds[i] == fd)
    {
      i := 0;
      while i < len && fds[i] != fd
        invariant i <= len
        invariant forall j :: 0 <= j < i ==> fds[j] != fd
      {
        i := i + 1;
      }
    }

    /** The rescan in unwatch_fd: recomputes highest from the live prefix,
        starting from -1. */
    method Rescan()
      requires 0 < max <= UINT_MAX && fds.Length == max && len <= max
      modifies this`highest
      ensures Valid()
    {
      highest := -1;
      var k := 0;
      while k < len
        invariant k <= len
        invariant highest == Highest(fds[..k])
      {
        assert fds[..k + 1][..k] == fds[..k];
        if fds[k] > highest {
          highest := fds[k];
        }
        k := k + 1;
      }
      assert fds[..k] == fds[..len];
    }

    /** The descriptors in the live prefix, as a set. */
    ghost function MemberSet(): (r: set<int>)
      reads this, fds
      requires Valid()
    {
      set x | x in Members()
    }

    /** The interest-set rebuild that opens watch_for_data: both flag sets
        become exactly the watched descriptors; nothing else changes. */
    method ArmFlagSets()
      requires Valid()
      modifies this`readSet, this`errorSet
      ensures Valid()
      ensures readSet == MemberSet() && errorSet == MemberSet()
    {
      readSet, errorSet := {}, {};
      var i := 0;
      while i < len
        invariant i <= len
        invariant readSet == set x | x in fds[..i]
        invariant errorSet == readSet
      {
        assert fds[..i + 1] == fds[..i] + [fds[i]];
        readSet := readSet + {fds[i]};
        errorSet := errorSet + {fds[i]};
        i := i + 1;
      }
      assert fds[..i] == fds[..len];
    }

    /** watch_for_data: rebuilds the interest sets, then lets select narrow
        them. The descriptors select reports as readable and as errored are
        parameters; the result is select's count of flags left set, one per
        flag, so a descriptor in both sets counts twice. */
    method WatchForData(readable: set<int>, errored: set<int>) returns (count: nat)
      requires Valid()
      modifies this`readSet, this`errorSet
      ensures Valid()
      ensures readSet == MemberSet() * readable && errorSet == MemberSet() * errored
      ensures count == |readSet| + |errorSet|
    {
      ArmFlagSets();
      readSet := readSet * readable;
      errorSet := errorSet * errored;
      count := |readSet| + |errorSet|;
    }
  }
}
