/**
 * Card identification: comparing a scanned UID with the authorised UIDs.
 *
 * A scanned card is represented by the first `uid.size` bytes of the reader's
 * UID buffer, so the size of the card's UID is the length of the sequence.
 */
module Uid {

  newtype byte = x: int | 0 <= x < 256

  datatype Option<T> = None | Some(value: T)

  /** Length of each authorised UID array. */
  const AuthorizedUidLength: nat := 4

  const AuthorizedUid1: seq<byte> := [0x12, 0x34, 0x56, 0x78]
  const AuthorizedUid2: seq<byte> := [0xAB, 0xCD, 0xEF, 0x01]
  const AuthorizedUid3: seq<byte> := [0x23, 0x45, 0x67, 0x89]

  /** The authorised UIDs in the order in which they are checked (card 1, 2, 3). */
  const AuthorizedUids: seq<seq<byte>> := [AuthorizedUid1, AuthorizedUid2, AuthorizedUid3]

  /** The first `size` bytes of the two arrays agree. */
  predicate PrefixMatches(scanned: seq<byte>, authorized: seq<byte>, size: nat)
    requires size <= |scanned| && size <= |authorized|
  {
    forall i :: 0 <= i < size ==> scanned[i] == authorized[i]
  }

  /**
   * compareUID: walks the first `size` bytes and stops at the first mismatch.
   * Both arrays must hold at least `size` bytes (reading past either is
   * undefined behaviour in the sketch).
   */
  method CompareUid(scanned: seq<byte>, authorized: seq<byte>, size: nat) returns (same: bool)
    requires size <= |scanned| && size <= |authorized|
    ensures same <==> PrefixMatches(scanned, authorized, size)
    ensures size == 0 ==> same
  {
    var i := 0;
    while i < size
      invariant 0 <= i <= size
      invariant forall k :: 0 <= k < i ==> scanned[k] == authorized[k]
    {
      if scanned[i] != authorized[i] {
        return false;
      }
      i := i + 1;
    }
    return true;
  }

  // ---------------------------------------------------------------------------
  // isAuthorizedCard as written: compareUID(uid, authorizedUIDk, uid.size)
  // ---------------------------------------------------------------------------

  /** Outcome of the byte loop of compareUID when nothing bounds its reads. */
  datatype Comparison = Same | Differs | ReadsPastEnd

  /**
   * The byte loop of compareUID from index `from` up to the size of the
   * scanned UID, with the size taken from the scanned card only. Reaching an
   * index beyond the authorised array before any mismatch is `ReadsPastEnd`.
   */
  function CompareFrom(scanned: seq<byte>, authorized: seq<byte>, from: nat): Comparison
    requires from <= |scanned|
    decreases |scanned| - from
  {
    if from == |scanned| then Same
    else if from >= |authorized| then ReadsPastEnd
    else if scanned[from] != authorized[from] then Differs
    else CompareFrom(scanned, authorized, from + 1)
  }

  /** What the as-written comparison yields, in terms of the bytes compared. */
  lemma {:induction false} CompareFromMeaning(scanned: seq<byte>, authorized: seq<byte>, from: nat)
    requires from <= |scanned| && from <= |authorized|
    ensures CompareFrom(scanned, authorized, from) == Same <==>
      |scanned| <= |authorized| && forall i :: from <= i < |scanned| ==> scanned[i] == authorized[i]
    ensures CompareFrom(scanned, authorized, from) == ReadsPastEnd <==>
      |authorized| < |scanned| && forall i :: from <= i < |authorized| ==> scanned[i] == authorized[i]
    decreases |scanned| - from
  {
    if from == |scanned| {
    } else if from == |authorized| {
    } else if scanned[from] != authorized[from] {
    } else {
      CompareFromMeaning(scanned, authorized, from + 1);
    }
  }

  /**
   * When the scanned UID is no longer than the authorised array, the
   * unbounded byte loop agrees with compareUID run over the scanned size.
   */
  lemma CompareFromAgrees(scanned: seq<byte>, authorized: seq<byte>)
    requires |scanned| <= |authorized|
    ensures CompareFrom(scanned, authorized, 0) == Same <==> PrefixMatches(scanned, authorized, |scanned|)
  {
    CompareFromMeaning(scanned, authorized, 0);
  }

  /** What isAuthorizedCard does: recognised card number, rejection, or a read past an array. */
  datatype Verdict = Recognized(card: nat) | Rejected | Undefined

  /** The checks of isAuthorizedCard from authorised UID `k` (0-based) on. */
  function CheckFrom(uid: seq<byte>, k: nat): Verdict
    requires k <= |AuthorizedUids|
    decreases |AuthorizedUids| - k
  {
    if k == |AuthorizedUids| then Rejected
    else match CompareFrom(uid, AuthorizedUids[k], 0)
      case Same => Recognized(k + 1)
      case ReadsPastEnd => Undefined
      case Differs => CheckFrom(uid, k + 1)
  }

  /** isAuthorizedCard exactly as the sketch writes it (size taken from the card). */
  function IsAuthorizedAsWritten(uid: seq<byte>): Verdict
  {
    CheckFrom(uid, 0)
  }

  /**
   * A 7-byte UID whose first four bytes are those of card 1 makes the
   * as-written check read past the 4-byte array.
   */
  lemma SevenByteUidReadsPastEnd(uid: seq<byte>)
    requires |uid| == 7 && uid[..4] == AuthorizedUid1
    ensures IsAuthorizedAsWritten(uid) == Undefined
  {
    CompareFromMeaning(uid, AuthorizedUid1, 0);
    assert forall i :: 0 <= i < 4 ==> uid[i] == uid[..4][i];
  }

  /**
   * The as-written check accepts UIDs shorter than the authorised arrays
   * whenever they are a prefix of one of them: the empty UID and the 2-byte
   * UID 12 34 are both taken for card 1.
   */
  lemma ShortUidPrefixAccepted()
    ensures IsAuthorizedAsWritten([]) == Recognized(1)
    ensures IsAuthorizedAsWritten([0x12, 0x34]) == Recognized(1)
  {
    CompareFromMeaning([], AuthorizedUid1, 0);
    CompareFromMeaning([0x12, 0x34], AuthorizedUid1, 0);
  }

  /**
   * For a UID longer than the authorised arrays the as-written check never
   * recognises the card: it rejects it, or it reads past an array exactly
   * when the first four bytes of the UID match an authorised UID checked
   * before any mismatching one.
   */
  lemma {:induction false} CheckFromLongUid(uid: seq<byte>, k: nat)
    requires k <= |AuthorizedUids| && |uid| > AuthorizedUidLength
    ensures !CheckFrom(uid, k).Recognized?
    ensures CheckFrom(uid, k) == Undefined <==>
      exists j :: k <= j < |AuthorizedUids| && uid[..AuthorizedUidLength] == AuthorizedUids[j]
    decreases |AuthorizedUids| - k
  {
    if k < |AuthorizedUids| {
      var a := AuthorizedUids[k];
      CompareFromMeaning(uid, a, 0);
      var prefix := uid[..AuthorizedUidLength];
      assert prefix == a <==> forall i :: 0 <= i < |a| ==> uid[i] == a[i] by {
        assert forall i :: 0 <= i < |a| ==> prefix[i] == uid[i];
      }
      CheckFromLongUid(uid, k + 1);
    }
  }

  lemma LongUidNeverRecognized(uid: seq<byte>)
    requires |uid| > AuthorizedUidLength
    ensures !IsAuthorizedAsWritten(uid).Recognized?
    ensures IsAuthorizedAsWritten(uid) == Undefined <==> uid[..AuthorizedUidLength] in AuthorizedUids
  {
    CheckFromLongUid(uid, 0);
  }

  /**
   * For a UID no longer than the authorised arrays the as-written check is
   * defined: it reports the first authorised UID, in the order 1, 2, 3, whose
   * first `|uid|` bytes are the UID, and rejects the card when there is none.
   */
  lemma {:induction false} CheckFromShortUid(uid: seq<byte>, k: nat)
    requires k <= |AuthorizedUids| && |uid| <= AuthorizedUidLength
    ensures CheckFrom(uid, k) != Undefined
    ensures CheckFrom(uid, k) == Rejected <==>
      forall j :: k <= j < |AuthorizedUids| ==> !PrefixMatches(uid, AuthorizedUids[j], |uid|)
    ensures CheckFrom(uid, k).Recognized? ==>
      var c := CheckFrom(uid, k).card;
      k < c <= |AuthorizedUids| && PrefixMatches(uid, AuthorizedUids[c - 1], |uid|) &&
      forall j :: k <= j < c - 1 ==> !PrefixMatches(uid, AuthorizedUids[j], |uid|)
    decreases |AuthorizedUids| - k
  {
    if k < |AuthorizedUids| {
      CompareFromMeaning(uid, AuthorizedUids[k], 0);
      CheckFromShortUid(uid, k + 1);
    }
  }

  lemma ShortUidFirstPrefixMatch(uid: seq<byte>)
    requires |uid| <= AuthorizedUidLength
    ensures IsAuthorizedAsWritten(uid) != Undefined
    ensures IsAuthorizedAsWritten(uid).Recognized? <==>
      exists j :: 0 <= j < |AuthorizedUids| && PrefixMatches(uid, AuthorizedUids[j], |uid|)
    ensures IsAuthorizedAsWritten(uid).Recognized? ==>
      var c := IsAuthorizedAsWritten(uid).card;
      1 <= c <= |AuthorizedUids| && PrefixMatches(uid, AuthorizedUids[c - 1], |uid|) &&
      forall j :: 0 <= j < c - 1 ==> !PrefixMatches(uid, AuthorizedUids[j], |uid|)
  {
    CheckFromShortUid(uid, 0);
  }

  // ---------------------------------------------------------------------------
  // Corrected check: a card is authorised when its whole UID equals one of the
  // authorised UIDs; the first one in the order 1, 2, 3 is the one reported.
  // ---------------------------------------------------------------------------

  /** First authorised UID, from index `k` on, equal to `uid`, as a 1-based card number. */
  function SlotFrom(uid: seq<byte>, k: nat): (slot: Option<nat>)
    requires k <= |AuthorizedUids|
    ensures slot.Some? ==>
      k < slot.value <= |AuthorizedUids| && uid == AuthorizedUids[slot.value - 1] &&
      forall j :: k <= j < slot.value - 1 ==> uid != AuthorizedUids[j]
    ensures slot.None? <==> forall j :: k <= j < |AuthorizedUids| ==> uid != AuthorizedUids[j]
    decreases |AuthorizedUids| - k
  {
    if k == |AuthorizedUids| then None
    else if uid == AuthorizedUids[k] then Some(k + 1)
    else SlotFrom(uid, k + 1)
  }

  /** The card number isAuthorizedCard reports for `uid`, if any. */
  function AuthorizedSlot(uid: seq<byte>): (slot: Option<nat>)
    ensures slot.None? <==> uid !in AuthorizedUids
    ensures slot.Some? ==>
      1 <= slot.value <= 3 && uid == AuthorizedUids[slot.value - 1] &&
      forall j :: 0 <= j < slot.value - 1 ==> uid != AuthorizedUids[j]
    ensures slot.Some? ==> |uid| == AuthorizedUidLength
  {
    SlotFrom(uid, 0)
  }

  /**
   * isAuthorizedCard with the size guard: the three byte comparisons run in
   * the order 1, 2, 3, each over the whole UID, and only when the UID has the
   * length of the authorised arrays.
   */
  method IsAuthorizedCard(uid: seq<byte>) returns (slot: Option<nat>)
    ensures slot == AuthorizedSlot(uid)
    ensures slot.Some? <==> uid in AuthorizedUids
  {
    if |uid| != AuthorizedUidLength {
      return None;
    }
    var same := CompareUid(uid, AuthorizedUid1, |uid|);
    if same {
      assert uid == AuthorizedUid1;
      return Some(1);
    }
    same := CompareUid(uid, AuthorizedUid2, |uid|);
    if same {
      assert uid == AuthorizedUid2;
      return Some(2);
    }
    same := CompareUid(uid, AuthorizedUid3, |uid|);
    if same {
      assert uid == AuthorizedUid3;
      return Some(3);
    }
    return None;
  }

  /** The corrected check rejects every UID that is not 4 bytes long, the short prefixes included. */
  lemma ShortUidRejected(uid: seq<byte>)
    requires |uid| < AuthorizedUidLength
    ensures AuthorizedSlot(uid) == None
  {
    assert |AuthorizedUid1| == |AuthorizedUid2| == |AuthorizedUid3| == AuthorizedUidLength;
  }

  /** On 4-byte UIDs the corrected check and the as-written one agree. */
  lemma FourByteUidsAgree(uid: seq<byte>)
    requires |uid| == AuthorizedUidLength
    ensures IsAuthorizedAsWritten(uid) ==
      match AuthorizedSlot(uid)
      case Some(card) => Recognized(card)
      case None => Rejected
  {
    CompareFromMeaning(uid, AuthorizedUid1, 0);
    CompareFromMeaning(uid, AuthorizedUid2, 0);
    CompareFromMeaning(uid, AuthorizedUid3, 0);
    assert uid == AuthorizedUid1 <==> forall i :: 0 <= i < |uid| ==> uid[i] == AuthorizedUid1[i];
    assert uid == AuthorizedUid2 <==> forall i :: 0 <= i < |uid| ==> uid[i] == AuthorizedUid2[i];
    assert uid == AuthorizedUid3 <==> forall i :: 0 <= i < |uid| ==> uid[i] == AuthorizedUid3[i];
  }
}
