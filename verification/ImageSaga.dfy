/** Registration of uploaded images (register_image in
    vivacapi/api/v1/endpoints/internal_spot_images.py): copy the object, insert the row, undo
    the copy when the insert raises. Operations run one after the other; each call to the
    storage or the database may fail. */
module ImageSaga {
  import opened Wrappers
  import opened Text

  // ---------------------------------------------------------------- keys

  const PENDING_PREFIX := "uploads/pending/"
  const FINAL_PREFIX := "spots/"
  const EXTENSIONS := {".jpg", ".png", ".webp"}

  predicate Alphanumeric(c: char) {
    '0' <= c <= '9' || 'A' <= c <= 'Z' || 'a' <= c <= 'z'
  }

  /** 22 letters or digits and an image extension. */
  predicate IsName(s: string) {
    && |s| > 22 && s[22..] in EXTENSIONS
    && forall i :: 0 <= i < 22 ==> Alphanumeric(s[i])
  }

  function PendingKey(spot: string, name: string): string {
    PENDING_PREFIX + spot + "/" + name
  }

  function FinalKey(spot: string, name: string): string {
    FINAL_PREFIX + spot + "/" + name
  }

  predicate IsFinal(key: string) {
    |key| >= 6 && key[..6] == FINAL_PREFIX
  }

  /** The group that the pending-key pattern of a spot captures, when it matches in full. */
  function NameIn(spot: string, key: string): Option<string> {
    var prefix := PENDING_PREFIX + spot + "/";
    if |key| >= |prefix| && key[..|prefix|] == prefix && IsName(key[|prefix|..]) then Some(key[|prefix|..]) else None
  }

  /** The pattern accepts exactly the keys the presign endpoint issues for that spot, and
      captures the name. */
  lemma PatternAcceptsIssuedKeys(spot: string, key: string, name: string)
    ensures NameIn(spot, key) == Some(name) <==> IsName(name) && key == PendingKey(spot, name)
  {
    var prefix := PENDING_PREFIX + spot + "/";
    if NameIn(spot, key) == Some(name) {
      assert key == prefix + name;
    }
    if key == PendingKey(spot, name) {
      assert key == prefix + name;
      assert key[..|prefix|] == prefix && key[|prefix|..] == name;
    }
  }

  /** Which are these: a new id of 22 letters or digits, and the extension of an image type. */
  lemma PresignedKeysAreAccepted(spot: string, id: string, extension: string)
    requires |id| == 22 && extension in {".jpg", ".png", ".webp"}
    requires forall i :: 0 <= i < 22 ==> '0' <= id[i] <= '9' || 'A' <= id[i] <= 'Z' || 'a' <= id[i] <= 'z'
    ensures NameIn(spot, "uploads/pending/" + spot + "/" + (id + extension)) == Some(id + extension)
  {
    var name := id + extension;
    assert name[22..] == extension && name[..22] == id;
    PatternAcceptsIssuedKeys(spot, PendingKey(spot, name), name);
  }

  lemma AcceptedKeysArePresigned(spot: string, key: string) returns (id: string, extension: string)
    requires NameIn(spot, key).Some?
    ensures |id| == 22 && extension in {".jpg", ".png", ".webp"}
    ensures forall i :: 0 <= i < 22 ==> '0' <= id[i] <= '9' || 'A' <= id[i] <= 'Z' || 'a' <= id[i] <= 'z'
    ensures key == "uploads/pending/" + spot + "/" + (id + extension)
  {
    var name := NameIn(spot, key).value;
    PatternAcceptsIssuedKeys(spot, key, name);
    id, extension := name[..22], name[22..];
    assert id + extension == name;
  }

  lemma NamesHaveNoSlash(name: string)
    requires IsName(name)
    ensures Free(name, '/')
  {
    assert forall i :: 22 <= i < |name| ==> name[i] == name[22..][i - 22];
  }

  /** Keys of different spots or names never meet, so no spot can register another's upload,
      and a pending key is never a final one. */
  lemma KeysAreSeparate(spot: string, name: string, spot': string, name': string)
    requires IsName(name) && IsName(name')
    ensures PendingKey(spot, name) == PendingKey(spot', name') ==> spot == spot' && name == name'
    ensures FinalKey(spot, name) == FinalKey(spot', name') ==> spot == spot' && name == name'
    ensures IsFinal(FinalKey(spot, name)) && !IsFinal(PendingKey(spot', name'))
  {
    NamesHaveNoSlash(name);
    NamesHaveNoSlash(name');
    if PendingKey(spot, name) == PendingKey(spot', name') {
      CutLast(PENDING_PREFIX + spot, '/', name, PENDING_PREFIX + spot', name');
      CutPrefix(PENDING_PREFIX, spot, spot');
    }
    if FinalKey(spot, name) == FinalKey(spot', name') {
      CutLast(FINAL_PREFIX + spot, '/', name, FINAL_PREFIX + spot', name');
      CutPrefix(FINAL_PREFIX, spot, spot');
    }
    FinalIsFinal(spot, name);
    PendingIsNotFinal(spot', name');
  }

  lemma FinalIsFinal(spot: string, name: string)
    ensures IsFinal(FinalKey(spot, name))
  {
    assert FinalKey(spot, name) == FINAL_PREFIX + (spot + "/" + name);
  }

  lemma PendingIsNotFinal(spot: string, name: string)
    ensures !IsFinal(PendingKey(spot, name))
  {
    assert PendingKey(spot, name)[0] == 'u' && FINAL_PREFIX[0] == 's';
  }

  // ---------------------------------------------------------------- state

  const IMAGE_MAX_COUNT_PER_SPOT := 20
  const IMAGE_MAX_BYTES := 10 * 1024 * 1024

  /** A soft-deleted image keeps its row and its object. */
  datatype Image = Image(spot: string, key: string, deleted: bool)

  /** `objects` maps the keys of the bucket to sizes. */
  datatype State = State(spots: set<string>, objects: map<string, nat>, images: map<string, Image>)

  /** A call may do nothing and raise, or do its work and raise all the same. */
  datatype Effect = Works | Fails | FailsLate

  datatype Faults = Faults(
    headFails: bool, reject: Effect, copy: Effect, insert: Effect, undo: Effect, tidy: Effect)

  datatype Error =
    | SPOT_NOT_FOUND
    | VALIDATION_ERROR
    | SPOT_IMAGE_COUNT_LIMIT_EXCEEDED
    | SPOT_IMAGE_TOO_LARGE
    | StorageFault
    | DatabaseFault

  function ActiveImages(images: map<string, Image>, spot: string): set<string> {
    set r | r in images && images[r].spot == spot && !images[r].deleted
  }

  function Removed(objects: map<string, nat>, key: string, effect: Effect): map<string, nat> {
    if effect.Fails? then objects else objects - {key}
  }

  function Copied(objects: map<string, nat>, from: string, to: string, effect: Effect): map<string, nat>
    requires from in objects
  {
    if effect.Fails? then objects else objects[to := objects[from]]
  }

  /** Why a registration is refused before anything is copied. */
  function Refusal(s: State, spot: string, key: string, headFails: bool): Option<Error> {
    if spot !in s.spots then Some(SPOT_NOT_FOUND)
    else if NameIn(spot, key).None? then Some(VALIDATION_ERROR)
    else if |ActiveImages(s.images, spot)| >= IMAGE_MAX_COUNT_PER_SPOT then Some(SPOT_IMAGE_COUNT_LIMIT_EXCEEDED)
    else if headFails then Some(StorageFault)
    else if key !in s.objects then Some(VALIDATION_ERROR)
    else if s.objects[key] > IMAGE_MAX_BYTES then Some(SPOT_IMAGE_TOO_LARGE)
    else None
  }

  /** A request is let through exactly if the spot exists, the key is one issued for it, the
      spot has room for an image, and the object is there and not too large. */
  lemma AcceptedIff(s: State, spot: string, key: string, headFails: bool)
    ensures Refusal(s, spot, key, headFails).None? <==>
              && spot in s.spots && (exists name :: IsName(name) && key == PendingKey(spot, name))
              && |set x | x in s.images && s.images[x].spot == spot && !s.images[x].deleted| < 20
              && !headFails && key in s.objects && s.objects[key] <= 10 * 1024 * 1024
    ensures forall name :: IsName(name) && key == PendingKey(spot, name) ==> NameIn(spot, key) == Some(name)
  {
    assert ActiveImages(s.images, spot) == set x | x in s.images && s.images[x].spot == spot && !s.images[x].deleted;
    forall name ensures IsName(name) && key == PendingKey(spot, name) ==> NameIn(spot, key) == Some(name) {
      PatternAcceptsIssuedKeys(spot, key, name);
    }
    if NameIn(spot, key).Some? {
      PatternAcceptsIssuedKeys(spot, key, NameIn(spot, key).value);
    }
  }

  function Target(spot: string, key: string): string
    requires NameIn(spot, key).Some?
  {
    FinalKey(spot, NameIn(spot, key).value)
  }

  /** `register_image`, for an image row with the given fresh uid. */
  function Register(s: State, spot: string, key: string, uid: string, faults: Faults): (State, Result<string, Error>) {
    var refusal := Refusal(s, spot, key, faults.headFails);
    if refusal.Some? then
      var objects :=
        if refusal == Some(SPOT_IMAGE_TOO_LARGE) then Removed(s.objects, key, faults.reject) else s.objects;
      (s.(objects := objects), Err(refusal.value))
    else
      var final := Target(spot, key);
      var copied := Copied(s.objects, key, final, faults.copy);
      if !faults.copy.Works? then (s.(objects := copied), Err(StorageFault))
      else
        var images := if faults.insert.Fails? then s.images else s.images[uid := Image(spot, final, false)];
        if !faults.insert.Works? then
          (s.(objects := Removed(copied, final, faults.undo), images := images), Err(DatabaseFault))
        else
          (s.(objects := Removed(copied, key, faults.tidy), images := images),
           if faults.tidy.Works? then Ok(uid) else Err(StorageFault))
  }

  class ImageService {
    var spots: set<string>
    var objects: map<string, nat>
    var images: map<string, Image>

    constructor (s: State)
      ensures Snapshot() == s
    {
      spots, objects, images := s.spots, s.objects, s.images;
    }

    function Snapshot(): State
      reads this
    {
      State(spots, objects, images)
    }

    method CopyObject(from: string, to: string, effect: Effect) returns (raised: bool)
      requires from in objects
      modifies this`objects
      ensures objects == Copied(old(objects), from, to, effect) && raised == !effect.Works?
    {
      if !effect.Fails? {
        objects := objects[to := objects[from]];
      }
      raised := !effect.Works?;
    }

    method DeleteObject(key: string, effect: Effect) returns (raised: bool)
      modifies this`objects
      ensures objects == Removed(old(objects), key, effect) && raised == !effect.Works?
    {
      if !effect.Fails? {
        objects := objects - {key};
      }
      raised := !effect.Works?;
    }

    method CreateImage(uid: string, image: Image, effect: Effect) returns (raised: bool)
      modifies this`images
      ensures images == if effect.Fails? then old(images) else old(images)[uid := image]
      ensures raised == !effect.Works?
    {
      if !effect.Fails? {
        images := images[uid := image];
      }
      raised := !effect.Works?;
    }

    method RegisterImage(spot: string, key: string, uid: string, faults: Faults) returns (r: Result<string, Error>)
      modifies this
      ensures (Snapshot(), r) == Register(old(Snapshot()), spot, key, uid, faults)
      ensures r.Ok? <==>
        && spot in old(spots) && (exists name :: IsName(name) && key == PendingKey(spot, name))
        && |set x | x in old(images) && old(images)[x].spot == spot && !old(images)[x].deleted| < 20
        && !faults.headFails && key in old(objects) && old(objects)[key] <= 10 * 1024 * 1024
        && faults.copy.Works? && faults.insert.Works? && faults.tidy.Works?
      ensures r == Err(SPOT_NOT_FOUND) <==> spot !in old(spots)
      ensures r == Err(SPOT_IMAGE_TOO_LARGE) ==> key in old(objects) && old(objects)[key] > 10 * 1024 * 1024
      ensures r == Err(SPOT_IMAGE_COUNT_LIMIT_EXCEEDED) ==>
        |set x | x in old(images) && old(images)[x].spot == spot && !old(images)[x].deleted| >= 20
      ensures r.Err? && r.error !in {StorageFault, DatabaseFault, SPOT_IMAGE_TOO_LARGE} ==>
        Snapshot() == old(Snapshot())
      ensures forall k :: k != key && !IsFinal(k) ==>
        (k in objects <==> k in old(objects)) && (k in objects ==> objects[k] == old(objects)[k])
      ensures forall x :: x in old(images) && x != uid ==> x in images && images[x] == old(images)[x]
      ensures r.Ok? ==>
        && r.value == uid && uid in images
        && images[uid] == Image(spot, images[uid].key, false) && IsFinal(images[uid].key)
        && (forall name :: IsName(name) && key == PendingKey(spot, name) ==> images[uid].key == FinalKey(spot, name))
        && key in old(objects) && key !in objects
        && images[uid].key in objects && objects[images[uid].key] == old(objects)[key] <= IMAGE_MAX_BYTES
      ensures
        (old(Paired(Snapshot())) && uid !in old(images)
          && old(Orderly(Snapshot(), Step.RegisterImage(spot, key, uid, faults))))
        ==> Paired(Snapshot())
    {
      ghost var before := Snapshot();
      if Paired(before) && uid !in images && Orderly(before, Step.RegisterImage(spot, key, uid, faults)) {
        StepKeepsPairing(before, Step.RegisterImage(spot, key, uid, faults));
      }
      AcceptedIff(before, spot, key, faults.headFails);
      if Refusal(before, spot, key, faults.headFails).None? {
        KeysOfAnAttempt(before, spot, key, faults.headFails);
      }
      if spot !in spots {
        return Err(SPOT_NOT_FOUND);
      }
      var name := NameIn(spot, key);
      if name.None? {
        return Err(VALIDATION_ERROR);
      }
      if |ActiveImages(images, spot)| >= IMAGE_MAX_COUNT_PER_SPOT {
        return Err(SPOT_IMAGE_COUNT_LIMIT_EXCEEDED);
      }
      if faults.headFails {
        return Err(StorageFault);
      }
      if key !in objects {
        return Err(VALIDATION_ERROR);
      }
      if objects[key] > IMAGE_MAX_BYTES {
        var _ := DeleteObject(key, faults.reject);
        return Err(SPOT_IMAGE_TOO_LARGE);
      }
      var final := FinalKey(spot, name.value);
      var raised := CopyObject(key, final, faults.copy);
      if raised {
        return Err(StorageFault);
      }
      raised := CreateImage(uid, Image(spot, final, false), faults.insert);
      if raised {
        var _ := DeleteObject(final, faults.undo);
        return Err(DatabaseFault);
      }
      raised := DeleteObject(key, faults.tidy);
      r := if raised then Err(StorageFault) else Ok(uid);
    }
  }

  // ---------------------------------------------------------------- one attempt

  predicate HasRow(s: State, key: string) {
    exists r :: r in s.images && s.images[r].key == key
  }

  /** The objects under the final prefix and the image rows are one to one. */
  ghost predicate Paired(s: State) {
    && (forall key :: IsFinal(key) ==> (key in s.objects <==> HasRow(s, key)))
    && (forall r :: r in s.images ==> IsFinal(s.images[r].key))
    && (forall r, q :: r in s.images && q in s.images && r != q ==> s.images[r].key != s.images[q].key)
  }

  /** Whether an attempt that gets as far as the copy keeps the pairing, from what is known of
      its final key before and of its calls. */
  predicate KeepsPairing(hasRow: bool, faults: Faults) {
    match faults.copy
    case Fails => true
    case FailsLate => hasRow
    case Works =>
      match faults.insert
      case Works => !hasRow
      case Fails => hasRow == faults.undo.Fails?
      case FailsLate => !hasRow && faults.undo.Fails?
  }

  lemma RefusedKeepsPairing(s: State, spot: string, key: string, uid: string, faults: Faults)
    requires Paired(s) && Refusal(s, spot, key, faults.headFails).Some?
    ensures Paired(Register(s, spot, key, uid, faults).0)
  {
    var s' := Register(s, spot, key, uid, faults).0;
    if NameIn(spot, key).Some? {
      PatternAcceptsIssuedKeys(spot, key, NameIn(spot, key).value);
      PendingIsNotFinal(spot, NameIn(spot, key).value);
      assert !IsFinal(key);
    }
    forall k | IsFinal(k) ensures k in s'.objects <==> HasRow(s', k) {
      assert k in s'.objects <==> k in s.objects;
    }
  }

  /** What matters is the one key that changes. */
  lemma PairingIsLocal(s: State, s': State, final: string, uid: string, image: Image)
    requires Paired(s) && IsFinal(final) && uid !in s.images && image.key == final
    requires forall k :: IsFinal(k) && k != final ==> (k in s'.objects <==> k in s.objects)
    requires s'.images == s.images || s'.images == s.images[uid := image]
    ensures s'.images == s.images ==> (Paired(s') <==> (final in s'.objects <==> HasRow(s, final)))
    ensures s'.images == s.images[uid := image] ==> (Paired(s') <==> final in s'.objects && !HasRow(s, final))
  {
    assert forall k :: k != final ==> (HasRow(s', k) <==> HasRow(s, k)) by {
      forall k | k != final ensures HasRow(s', k) <==> HasRow(s, k) {
        if HasRow(s, k) {
          var r :| r in s.images && s.images[r].key == k;
          assert r in s'.images && s'.images[r].key == k;
        }
      }
    }
    if s'.images == s.images[uid := image] {
      assert uid in s'.images && s'.images[uid].key == final;
      if HasRow(s, final) {
        var r :| r in s.images && s.images[r].key == final;
        assert s'.images[r].key == s'.images[uid].key;
      }
    } else {
      assert HasRow(s', final) <==> HasRow(s, final);
    }
  }

  lemma KeysOfAnAttempt(s: State, spot: string, key: string, headFails: bool)
    requires Refusal(s, spot, key, headFails).None?
    ensures IsFinal(Target(spot, key)) && !IsFinal(key)
  {
    var name := NameIn(spot, key).value;
    PatternAcceptsIssuedKeys(spot, key, name);
    FinalIsFinal(spot, name);
    PendingIsNotFinal(spot, name);
  }

  /** An attempt that is not refused keeps objects and rows one to one exactly when its calls
      allow it: a raising copy has not copied (or the object was there), an insert that works
      finds no row of that key, and an insert that raises has not committed and its undo works. */
  lemma AttemptKeepsPairingIff(s: State, spot: string, key: string, uid: string, faults: Faults)
    requires Paired(s) && Refusal(s, spot, key, faults.headFails).None? && uid !in s.images
    ensures Paired(Register(s, spot, key, uid, faults).0) <==> KeepsPairing(HasRow(s, Target(spot, key)), faults)
  {
    var s', final := Register(s, spot, key, uid, faults).0, Target(spot, key);
    var image := Image(spot, final, false);
    KeysOfAnAttempt(s, spot, key, faults.headFails);
    assert final in s.objects <==> HasRow(s, final);
    PairingIsLocal(s, s', final, uid, image);
    assert s.images[uid := image] != s.images;
    if faults.copy.Works? && !faults.insert.Fails? {
      assert s'.images == s.images[uid := image];
    } else {
      assert s'.images == s.images;
    }
  }

  /** A copy or an insert that raises without effect leaves nothing behind, and above all the
      pending object, if the undo works and the key was not registered before: the client can
      try again, and a try whose calls work then registers the image. */
  lemma FailedAttemptLeavesNoTrace(s: State, spot: string, key: string, uid: string, faults: Faults, again: Faults)
    requires Paired(s) && Refusal(s, spot, key, faults.headFails).None? && uid !in s.images
    requires !HasRow(s, Target(spot, key)) && !faults.insert.FailsLate? && !faults.undo.Fails?
    requires faults.copy.Fails? || (faults.copy.Works? && faults.insert.Fails?)
    requires !again.headFails && again.copy.Works? && again.insert.Works? && again.tidy.Works?
    ensures Register(s, spot, key, uid, faults).0 == s
    ensures var (s', r) := Register(Register(s, spot, key, uid, faults).0, spot, key, uid, again);
            && r == Ok(uid)
            && s'.images == s.images[uid := Image(spot, Target(spot, key), false)]
            && Target(spot, key) in s'.objects && s'.objects[Target(spot, key)] == s.objects[key] && key !in s'.objects
  {
    KeysOfAnAttempt(s, spot, key, faults.headFails);
    var final := Target(spot, key);
    assert final !in s.objects;
    assert s.objects[final := s.objects[key]] - {final} == s.objects;
  }

  /** Whatever fails, a registration loses the pending object only if it was oversized, or once
      the image has its row and its final object. */
  lemma PendingObjectStays(s: State, spot: string, key: string, uid: string, faults: Faults)
    requires key in s.objects
    ensures var (s', r) := Register(s, spot, key, uid, faults);
            || (key in s'.objects && s'.objects[key] == s.objects[key])
            || (r == Err(SPOT_IMAGE_TOO_LARGE) && s.objects[key] > IMAGE_MAX_BYTES)
            || (uid in s'.images && s'.images[uid].spot == spot && !s'.images[uid].deleted
                && s'.images[uid].key in s'.objects && s'.objects[s'.images[uid].key] == s.objects[key])
  {
    if Refusal(s, spot, key, faults.headFails).None? {
      KeysOfAnAttempt(s, spot, key, faults.headFails);
    }
  }

  // ---------------------------------------------------------------- runs

  datatype Step =
    | AddSpot(spot: string)
    | Upload(key: string, size: nat)
    | Expire(key: string)
    | RegisterImage(spot: string, key: string, uid: string, faults: Faults)
    | DeleteImage(uid: string)

  /** Clients write, and the bucket's lifecycle rule removes, outside the final prefix only. */
  predicate Enabled(s: State, step: Step) {
    match step
    case AddSpot(_) => true
    case Upload(key, _) => !IsFinal(key)
    case Expire(key) => !IsFinal(key)
    case RegisterImage(_, _, uid, _) => uid !in s.images
    case DeleteImage(uid) => uid in s.images
  }

  function Apply(s: State, step: Step): State
    requires Enabled(s, step)
  {
    match step
    case AddSpot(spot) => s.(spots := s.spots + {spot})
    case Upload(key, size) => s.(objects := s.objects[key := size])
    case Expire(key) => s.(objects := s.objects - {key})
    case RegisterImage(spot, key, uid, faults) => Register(s, spot, key, uid, faults).0
    case DeleteImage(uid) => s.(images := s.images[uid := s.images[uid].(deleted := true)])
  }

  ghost predicate Run(ss: seq<State>, steps: seq<Step>) {
    && |ss| == |steps| + 1
    && ss[0].objects == map[] && ss[0].images == map[]
    && forall i :: 0 <= i < |steps| ==> Enabled(ss[i], steps[i]) && ss[i + 1] == Apply(ss[i], steps[i])
  }

  /** What can be told before an attempt: no row has its key yet, no call does its work and
      raises, and an undo works. */
  predicate Orderly(s: State, step: Step) {
    step.RegisterImage? && NameIn(step.spot, step.key).Some? ==>
      && !HasRow(s, Target(step.spot, step.key))
      && !step.faults.copy.FailsLate? && !step.faults.insert.FailsLate? && step.faults.undo.Works?
  }

  lemma StepKeepsPairing(s: State, step: Step)
    requires Paired(s) && Enabled(s, step) && Orderly(s, step)
    ensures Paired(Apply(s, step))
  {
    match step
    case RegisterImage(spot, key, uid, faults) =>
      if Refusal(s, spot, key, faults.headFails).Some? {
        RefusedKeepsPairing(s, spot, key, uid, faults);
      } else {
        AttemptKeepsPairingIff(s, spot, key, uid, faults);
      }
    case DeleteImage(uid) =>
      var s' := Apply(s, step);
      forall k ensures HasRow(s', k) <==> HasRow(s, k) {
        if HasRow(s, k) {
          var r :| r in s.images && s.images[r].key == k;
          assert r in s'.images && s'.images[r].key == k;
        }
      }
    case _ =>
      var s' := Apply(s, step);
      forall k ensures HasRow(s', k) <==> HasRow(s, k) {
      }
  }

  /** Over every run of orderly registrations, whatever fails in them, objects under the final
      prefix and image rows stay one to one. */
  lemma {:induction false} RunKeepsPairing(ss: seq<State>, steps: seq<Step>, n: nat)
    requires Run(ss, steps) && n <= |steps|
    requires forall i :: 0 <= i < n ==> Orderly(ss[i], steps[i])
    ensures Paired(ss[n])
  {
    if n > 0 {
      RunKeepsPairing(ss, steps, n - 1);
      StepKeepsPairing(ss[n - 1], steps[n - 1]);
    }
  }

  /** And over every run at all, no spot exceeds the maximum of active images. */
  lemma {:induction false} ActiveImagesAreBounded(ss: seq<State>, steps: seq<Step>, n: nat, spot: string)
    requires Run(ss, steps) && n <= |steps|
    ensures |ActiveImages(ss[n].images, spot)| <= 20
  {
    if n > 0 {
      ActiveImagesAreBounded(ss, steps, n - 1, spot);
      StepKeepsBound(ss[n - 1], steps[n - 1], spot);
    }
  }

  lemma RegisterAddsOne(s: State, spot: string, key: string, uid: string, faults: Faults)
    ensures var images := Register(s, spot, key, uid, faults).0.images;
            images == s.images
            || (|ActiveImages(s.images, spot)| < IMAGE_MAX_COUNT_PER_SPOT
                && exists final :: images == s.images[uid := Image(spot, final, false)])
  {
  }

  lemma OneMoreActive(images: map<string, Image>, uid: string, image: Image, spot: string)
    requires uid !in images && !image.deleted
    ensures |ActiveImages(images[uid := image], spot)| == |ActiveImages(images, spot)| + if image.spot ==
      spot then 1 else 0
  {
    var was, now := ActiveImages(images, spot), ActiveImages(images[uid := image], spot);
    assert now == was + if image.spot == spot then {uid} else {};
  }

  lemma StepKeepsBound(s: State, step: Step, spot: string)
    requires Enabled(s, step) && |ActiveImages(s.images, spot)| <= IMAGE_MAX_COUNT_PER_SPOT
    ensures |ActiveImages(Apply(s, step).images, spot)| <= IMAGE_MAX_COUNT_PER_SPOT
  {
    match step
    case RegisterImage(at, key, uid, faults) =>
      RegisterAddsOne(s, at, key, uid, faults);
      if Apply(s, step).images != s.images {
        var final :| Apply(s, step).images == s.images[uid := Image(at, final, false)];
        OneMoreActive(s.images, uid, Image(at, final, false), spot);
      }
    case DeleteImage(uid) =>
      assert ActiveImages(Apply(s, step).images, spot) == ActiveImages(s.images, spot) - {uid};
    case _ =>
  }
}
