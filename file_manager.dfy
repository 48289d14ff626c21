/**
 * Upload bookkeeping: the per-user upload log with its base-26 file labels,
 * and the registry that hands out user ids.  The JSON files the source reads
 * and writes are modelled as the fields of two in-memory objects.
 */
module FileManager {

  import opened Base
  import opened Text

  const MaxUploadsPerUser: nat := 100

  /** The `d`-th capital letter of the alphabet. */
  function Letter(d: nat): (c: char)
    requires d < 26
    ensures 'A' <= c <= 'Z'
  {
    (d + 'A' as int) as char
  }

  /** The label of the upload with zero-based number `n`: bijective base 26. */
  function Label(n: nat): (s: string)
    ensures |s| > 0
    ensures forall k :: 0 <= k < |s| ==> 'A' <= s[k] <= 'Z'
    decreases n
  {
    if n < 26 then [Letter(n)] else Label(n / 26 - 1) + [Letter(n % 26)]
  }

  /** Reads a label back: `A` is 1, `Z` is 26, `AA` is 27. */
  function LabelValue(s: string): (v: nat)
    requires forall k :: 0 <= k < |s| ==> 'A' <= s[k] <= 'Z'
    ensures |s| > 0 ==> v > 0
    decreases |s|
  {
    if |s| == 0 then 0
    else LabelValue(s[..|s| - 1]) * 26 + (s[|s| - 1] as int - 'A' as int + 1)
  }

  lemma {:induction false} LabelDecodes(n: nat)
    ensures LabelValue(Label(n)) == n + 1
    decreases n
  {
    if n >= 26 {
      var q := n / 26 - 1;
      var s := Label(n);
      LabelDecodes(q);
      assert s[..|s| - 1] == Label(q);
    }
  }

  /** Distinct upload counts never share a label. */
  lemma LabelInjective(m: nat, n: nat)
    requires Label(m) == Label(n)
    ensures m == n
  {
    LabelDecodes(m);
    LabelDecodes(n);
  }

  lemma LabelExamples()
    ensures Label(0) == "A" && Label(1) == "B" && Label(25) == "Z"
    ensures Label(26) == "AA" && Label(27) == "AB"
    ensures Label(701) == "ZZ" && Label(702) == "AAA"
  {
  }

  /** One record of `data_upload_log.json`. */
  datatype Entry = Entry(
    uploadNumber: nat,
    originalFilename: string,
    savedFilename: string,
    timestamp: string,
    waveformJson: Option<string>)

  /** `user{id}{label}.vcd` */
  function SavedName(userId: int, count: nat): (name: string)
    ensures StartsWith(name, "user") && EndsWith(name, ".vcd")
  {
    "user" + IntToString(userId) + Label(count) + ".vcd"
  }

  /** Within one user's folder the saved names of different uploads differ. */
  lemma SavedNamesDistinct(userId: int, i: nat, j: nat)
    requires i != j
    ensures SavedName(userId, i) != SavedName(userId, j)
  {
    var p := "user" + IntToString(userId);
    if SavedName(userId, i) == SavedName(userId, j) {
      var a := SavedName(userId, i);
      assert |Label(i)| == |Label(j)|;
      assert Label(i) == a[|p|..|a| - 4];
      assert Label(j) == a[|p|..|a| - 4];
      LabelInjective(i, j);
    }
  }

  /** `get_next_file_label`: the label for the upload after `uploads`. */
  method GetNextFileLabel(uploads: seq<Entry>) returns (next: string)
    ensures next == Label(|uploads|)
  {
    var count: int := |uploads|;
    next := "";
    while true
      invariant count >= 0 && Label(count) + next == Label(|uploads|)
      decreases count
    {
      next := [Letter(count % 26)] + next;
      count := count / 26 - 1;
      if count < 0 {
        break;
      }
    }
  }

  /** The log of one user, `{"uploads": [...]}`. */
  class UploadLog {
    var uploads: seq<Entry>

    /**
     * Upload numbers count from 1 in log order and the cap is respected.  An
     * invariant that the constructor establishes and both methods preserve;
     * neither method needs it, because the source never reads the numbers back.
     */
    predicate Valid()
      reads this
    {
      |uploads| <= MaxUploadsPerUser &&
      forall i :: 0 <= i < |uploads| ==> uploads[i].uploadNumber == i + 1
    }

    /** The log `ensure_user_folder` creates. */
    constructor ()
      ensures uploads == []
      ensures Valid()
    {
      uploads := [];
    }

    /**
     * `save_vcd_file`: refuses once the cap is reached, otherwise appends one
     * entry and returns the name the copy is saved under.  The clock reading
     * is a parameter.
     */
    method SaveVcdFile(userId: int, uploadedFilename: string, timestamp: string)
      returns (r: Result<string, string>)
      modifies this
      ensures |old(uploads)| >= MaxUploadsPerUser ==>
        r == Err("Upload limit reached for user" + IntToString(userId)) && uploads == old(uploads)
      ensures |old(uploads)| < MaxUploadsPerUser ==>
        r == Ok(SavedName(userId, |old(uploads)|)) &&
        uploads == old(uploads) +
          [Entry(|old(uploads)| + 1, uploadedFilename, SavedName(userId, |old(uploads)|), timestamp, None)]
      ensures old(Valid()) ==> Valid()
    {
      if |uploads| >= MaxUploadsPerUser {
        return Err("Upload limit reached for user" + IntToString(userId));
      }
      var nextLabel := GetNextFileLabel(uploads);
      var newFilename := "user" + IntToString(userId) + nextLabel + ".vcd";
      var entry := Entry(|uploads| + 1, uploadedFilename, newFilename, timestamp, None);
      uploads := uploads + [entry];
      r := Ok(newFilename);
    }

    /** `update_json_path_in_log`: records `jsonPath` on the first entry saved as `vcdFilename`. */
    method UpdateJsonPathInLog(vcdFilename: string, jsonPath: string)
      modifies this
      ensures (forall k :: 0 <= k < |old(uploads)| ==> old(uploads)[k].savedFilename != vcdFilename) ==>
        uploads == old(uploads)
      ensures forall i ::
        (0 <= i < |old(uploads)| && old(uploads)[i].savedFilename == vcdFilename &&
         forall k :: 0 <= k < i ==> old(uploads)[k].savedFilename != vcdFilename) ==>
        uploads == old(uploads)[i := old(uploads)[i].(waveformJson := Some(jsonPath))]
      ensures old(Valid()) ==> Valid()
    {
      var i := 0;
      while i < |uploads|
        invariant 0 <= i <= |uploads| && uploads == old(uploads)
        invariant forall k :: 0 <= k < i ==> uploads[k].savedFilename != vcdFilename
      {
        if uploads[i].savedFilename == vcdFilename {
          uploads := uploads[i := uploads[i].(waveformJson := Some(jsonPath))];
          break;
        }
        i := i + 1;
      }
    }
  }

  /** `user_registry.json`: the next id to hand out. */
  class UserRegistry {
    var nextUserId: int

    constructor ()
      ensures nextUserId == 1
    {
      nextUserId := 1;
    }

    /** `get_or_create_user`: returns the stored id and advances the counter. */
    method GetOrCreateUser() returns (userId: int)
      modifies this
      ensures userId == old(nextUserId)
      ensures nextUserId == old(nextUserId) + 1
    {
      userId := nextUserId;
      nextUserId := nextUserId + 1;
    }
  }
}
