/** CBaseAllocator::CSampleList (src/BaseClasses/amfilter.h:1345-1377): the allocator's
    free list, linked through the samples themselves. */
module SampleList {
  import opened Counting

  /** The part of CMediaSample that the allocator touches. */
  class MediaSample {
    var next: MediaSample?
    var cRef: int

    constructor ()
      ensures next == null && cRef == 0
    {
      next, cRef := null, 0;
    }
  }

  lemma WithoutNoDuplicates<S>(s: seq<S>, k: nat)
    requires NoDuplicates(s) && k < |s|
    ensures NoDuplicates(s[..k] + s[k + 1..])
  {
    var t := s[..k] + s[k + 1..];
    assert forall i :: 0 <= i < |t| ==> t[i] == s[if i < k then i else i + 1];
  }

  class SampleList {
    var list: MediaSample?
    var nOnList: int
    ghost var Contents: seq<MediaSample>

    ghost function At(i: nat): MediaSample?
      reads this
    {
      if i < |Contents| then Contents[i] else null
    }

    ghost predicate Valid()
      reads this, Contents
    {
      && nOnList == |Contents|
      && NoDuplicates(Contents)
      && list == At(0)
      && forall i :: 0 <= i < |Contents| ==> Contents[i].next == At(i + 1)
    }

    constructor ()
      ensures Valid() && Contents == []
    {
      list, nOnList, Contents := null, 0, [];
    }

    method Add(sample: MediaSample)
      requires Valid() && sample !in Contents
      modifies this, sample`next
      ensures Valid() && Contents == [sample] + old(Contents)
    {
      sample.next := list;
      list := sample;
      nOnList := nOnList + 1;
      Contents := [sample] + Contents;
    }

    method RemoveHead() returns (sample: MediaSample?)
      requires Valid()
      modifies this
      ensures Valid()
      ensures old(Contents) == [] ==> sample == null && Contents == []
      ensures old(Contents) != [] ==> sample == old(Contents)[0] && Contents == old(Contents)[1..]
    {
      sample := list;
      if sample != null {
        list := sample.next;
        nOnList := nOnList - 1;
        Contents := Contents[1..];
      }
    }

    ghost function Without(k: nat): seq<MediaSample>
      reads this
      requires k < |Contents|
    {
      Contents[..k] + Contents[k + 1..]
    }

    /** Unlinks the k-th sample, given its predecessor. */
    method Unlink(prev: MediaSample?, sample: MediaSample, ghost k: nat)
      requires Valid() && k < |Contents| && Contents[k] == sample
      requires prev == if k == 0 then null else Contents[k - 1]
      modifies this, Contents
      ensures Valid() && Contents == old(Without(k)) && sample.next == null
    {
      if prev == null {
        list := sample.next;
      } else {
        prev.next := sample.next;
      }
      sample.next := null;
      nOnList := nOnList - 1;
      ghost var was := Contents;
      Contents := Without(k);
      WithoutNoDuplicates(was, k);
      forall i | 0 <= i < |Contents|
        ensures Contents[i].next == At(i + 1)
      {
        if i + 1 < k {
          assert Contents[i] == was[i] && At(i + 1) == was[i + 1];
          assert was[i] != was[k] && was[i] != was[k - 1];
        } else if i + 1 == k {
          assert Contents[i] == was[k - 1];
        } else {
          assert Contents[i] == was[i + 1];
          assert was[i + 1] != was[k];
        }
      }
    }

    /** Takes the sample out wherever it stands, keeping the order of the others; a sample
        that is not on the list changes nothing. */
    method Remove(sample: MediaSample)
      requires Valid()
      modifies this, Contents
      ensures Valid()
      ensures sample !in old(Contents) ==> Contents == old(Contents)
      ensures sample in old(Contents) ==>
                && sample.next == null
                && exists k :: 0 <= k < |old(Contents)| && old(Contents)[k] == sample && Contents == old(Without(k))
    {
      var prev: MediaSample? := null;
      var search := list;
      ghost var k := 0;
      while search != null && search != sample
        invariant 0 <= k <= |Contents|
        invariant search == At(k)
        invariant prev == if k == 0 then null else Contents[k - 1]
        invariant forall i :: 0 <= i < k ==> Contents[i] != sample
        decreases |Contents| - k
      {
        prev := search;
        search := search.next;
        k := k + 1;
      }
      if search != null {
        Unlink(prev, search, k);
      }
    }
  }
}
