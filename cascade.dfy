/**
 * The selector cascade every script uses: an ordered list of candidates
 * (CSS selectors, date formats, image elements) is tried until one of them
 * yields a usable value.
 */
module Cascade {
  import opened Wrappers

  /** Which candidate answered, and with what. */
  datatype Hit<T> = Hit(index: nat, value: T)

  /** The first candidate, in list order, whose reader yields a value. */
  function FirstValue<C, T>(read: C -> Option<T>, candidates: seq<C>): (r: Option<Hit<T>>)
    ensures r.Some? ==> r.value.index < |candidates|
    ensures r.Some? ==> read(candidates[r.value.index]) == Some(r.value.value)
    ensures r.Some? ==> forall j :: 0 <= j < r.value.index ==> read(candidates[j]).None?
    ensures r.None? <==> forall j :: 0 <= j < |candidates| ==> read(candidates[j]).None?
  {
    if candidates == [] then None
    else
      match read(candidates[0])
      case Some(v) => Some(Hit(0, v))
      case None =>
        match FirstValue(read, candidates[1..])
        case None => None
        case Some(h) => Some(Hit(h.index + 1, h.value))
  }

  /** The cascade answers with candidate `i` exactly when `i` is the first
      candidate with a value. */
  lemma FirstValueAt<C, T>(read: C -> Option<T>, candidates: seq<C>, i: nat, v: T)
    requires i < |candidates| && read(candidates[i]) == Some(v)
    requires forall j :: 0 <= j < i ==> read(candidates[j]).None?
    ensures FirstValue(read, candidates) == Some(Hit(i, v))
  {
  }

  /** Candidates after the one that answered are never consulted: changing
      what they would yield does not change the answer. */
  lemma FirstValueIgnoresLater<C, T>(read: C -> Option<T>, read': C -> Option<T>, candidates: seq<C>)
    requires FirstValue(read, candidates).Some?
    requires forall j :: 0 <= j <= FirstValue(read, candidates).value.index ==>
               read'(candidates[j]) == read(candidates[j])
    ensures FirstValue(read', candidates) == FirstValue(read, candidates)
  {
    var h := FirstValue(read, candidates).value;
    FirstValueAt(read', candidates, h.index, h.value);
  }

  /** A cascade that found nothing in its first `i` candidates, extended by
      one more candidate that yields nothing, still finds nothing. */
  lemma FirstValueExtendNone<C, T>(read: C -> Option<T>, candidates: seq<C>, i: nat)
    requires i < |candidates|
    requires FirstValue(read, candidates[..i]).None? && read(candidates[i]).None?
    ensures FirstValue(read, candidates[..i + 1]).None?
  {
    var longer := candidates[..i + 1];
    forall j | 0 <= j < |longer|
      ensures read(longer[j]).None?
    {
      if j < i {
        assert longer[j] == candidates[..i][j];
      }
    }
  }

  /** A cascade that found nothing in its first `i` candidates answers with
      candidate `i` when that one yields a value. */
  lemma FirstValueAfterNone<C, T>(read: C -> Option<T>, candidates: seq<C>, i: nat, v: T)
    requires i < |candidates| && read(candidates[i]) == Some(v)
    requires FirstValue(read, candidates[..i]).None?
    ensures FirstValue(read, candidates) == Some(Hit(i, v))
  {
    forall j | 0 <= j < i
      ensures read(candidates[j]).None?
    {
      assert candidates[..i][j] == candidates[j];
    }
    FirstValueAt(read, candidates, i, v);
  }
}
