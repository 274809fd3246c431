/** The device vault (lib/vault.ts): project snapshots encrypted with
    AES-GCM under one device key, kept in the browser's IndexedDB. The key
    store holds at most the record `device_key`; the snapshot store is
    keyed by snapshot id. The two feature flags, the random IV, the key the
    platform generates, the cipher and the clock are inputs. */
module Vault {
  import opened Base
  import opened Crypto
  import opened InputValidation
  import AppAuth
  import Sorting

  /** The byte length of the random AES-GCM IV encryptData draws. */
  const IV_LENGTH := 12
  /** cleanupSnapshots' default `keepCount`. */
  const DEFAULT_KEEP_COUNT := 5

  datatype SnapshotType = Create | Save | Close | Manual
  {
    function Name(): string {
      match this
      case Create => "create"
      case Save => "save"
      case Close => "close"
      case Manual => "manual"
    }
  }

  /** The record stored under `device_key`. */
  datatype DeviceKey = DeviceKey(key: KeyHandle, createdAt: int)

  datatype Snapshot = Snapshot(
    id: string,
    projectId: string,
    encryptedData: Bytes,
    iv: Bytes,
    createdAt: int,
    snapshotType: SnapshotType)

  /** What listSnapshots returns per snapshot. */
  datatype SnapshotInfo = SnapshotInfo(id: string, createdAt: int, snapshotType: SnapshotType)

  /** The `code` of each VaultError; the two validation errors carry their
      message. */
  datatype VaultError =
    | EncryptionDisabled
    | KeyGenerationError
    | VaultLocked
    | EncryptionError
    | DecryptionError
    | InvalidProjectId(message: string)
    | InvalidData(message: string)
    | InvalidSnapshotId

  // ---------------------------------------------------------------------
  // The snapshot store

  predicate DistinctIds(snaps: seq<Snapshot>) {
    forall i, j :: 0 <= i < j < |snaps| ==> snaps[i].id != snaps[j].id
  }

  function IndexOf(snaps: seq<Snapshot>, id: string): (r: Option<nat>)
    ensures r.Some? ==> r.value < |snaps| && snaps[r.value].id == id
    ensures r.None? ==> forall i :: 0 <= i < |snaps| ==> snaps[i].id != id
  {
    if snaps == [] then None
    else if snaps[0].id == id then Some(0)
    else match IndexOf(snaps[1..], id)
      case None => None
      case Some(i) => Some(i + 1)
  }

  /** `store.get(id)`. */
  function Find(snaps: seq<Snapshot>, id: string): (r: Option<Snapshot>)
    ensures r.Some? ==> r.value in snaps && r.value.id == id
    ensures r.None? ==> forall s :: s in snaps ==> s.id != id
  {
    match IndexOf(snaps, id)
    case None => None
    case Some(i) => Some(snaps[i])
  }

  /** `store.put(s)`: replaces the record with the same id, or adds one. */
  function Put(snaps: seq<Snapshot>, s: Snapshot): (r: seq<Snapshot>)
    requires DistinctIds(snaps)
    ensures DistinctIds(r)
    ensures Find(r, s.id) == Some(s)
    ensures forall t :: t in r <==> t == s || (t in snaps && t.id != s.id)
  {
    match IndexOf(snaps, s.id)
    case Some(i) =>
      var r := snaps[i := s];
      assert forall t :: t in snaps && t.id != s.id ==> t in r by {
        forall t | t in snaps && t.id != s.id ensures t in r {
          var j :| 0 <= j < |snaps| && snaps[j] == t;
          assert r[j] == t;
        }
      }
      assert forall j :: 0 <= j < |r| && j != i ==> r[j].id != s.id;
      assert r[i] == s;
      SameIdSame(r, Find(r, s.id).value, s);
      r
    case None =>
      var r := snaps + [s];
      assert r[|snaps|] == s;
      SameIdSame(r, Find(r, s.id).value, s);
      r
  }

  /** `${projectId}_${Date.now()}_${type}`. */
  function SnapshotId(projectId: string, now: int, t: SnapshotType): string {
    projectId + "_" + IntToString(now) + "_" + t.Name()
  }

  function ProjectSnapshots(snaps: seq<Snapshot>, projectId: string): (r: seq<Snapshot>)
    ensures forall s :: s in r <==> s in snaps && s.projectId == projectId
  {
    if snaps == [] then []
    else if snaps[0].projectId == projectId then [snaps[0]] + ProjectSnapshots(snaps[1..], projectId)
    else ProjectSnapshots(snaps[1..], projectId)
  }

  function Info(s: Snapshot): SnapshotInfo {
    SnapshotInfo(s.id, s.createdAt, s.snapshotType)
  }

  function Infos(snaps: seq<Snapshot>): (r: seq<SnapshotInfo>)
    ensures |r| == |snaps|
    ensures forall i :: 0 <= i < |snaps| ==> r[i] == Info(snaps[i])
  {
    if snaps == [] then [] else [Info(snaps[0])] + Infos(snaps[1..])
  }

  function InfoCreatedAt(i: SnapshotInfo): int { i.createdAt }

  /** The listing of a project, newest first: `index.getAll(projectId)`,
      mapped to `{id, created_at, type}` and sorted by `created_at`
      descending. */
  function Listing(snaps: seq<Snapshot>, projectId: string): (r: seq<SnapshotInfo>)
    ensures Sorting.SortedDesc(r, InfoCreatedAt)
    ensures multiset(r) == multiset(Infos(ProjectSnapshots(snaps, projectId)))
  {
    Sorting.SortDesc(Infos(ProjectSnapshots(snaps, projectId)), InfoCreatedAt)
  }

  /** The listing holds exactly the project's snapshots. */
  lemma ListingExactlyTheProject(snaps: seq<Snapshot>, projectId: string)
    ensures forall s :: s in snaps && s.projectId == projectId ==> Info(s) in Listing(snaps, projectId)
    ensures forall x :: x in Listing(snaps, projectId) ==>
      exists s :: s in snaps && s.projectId == projectId && Info(s) == x
  {
    var infos := Infos(ProjectSnapshots(snaps, projectId));
    InfosMembers(ProjectSnapshots(snaps, projectId));
    assert forall x :: x in Listing(snaps, projectId) <==> x in infos by {
      forall x ensures x in Listing(snaps, projectId) <==> x in infos {
        assert x in Listing(snaps, projectId) <==> x in multiset(Listing(snaps, projectId));
        assert x in infos <==> x in multiset(infos);
      }
    }
  }

  lemma InfosMembers(ps: seq<Snapshot>)
    ensures forall s :: s in ps ==> Info(s) in Infos(ps)
    ensures forall x :: x in Infos(ps) ==> exists s :: s in ps && Info(s) == x
  {
    var infos := Infos(ps);
    forall s | s in ps ensures Info(s) in infos {
      var i :| 0 <= i < |ps| && ps[i] == s;
      assert infos[i] == Info(s);
    }
    forall x | x in infos ensures exists s :: s in ps && Info(s) == x {
      var i :| 0 <= i < |infos| && infos[i] == x;
      assert ps[i] in ps;
    }
  }

  /** Where `slice(start)` begins on a sequence of length `n`: a negative
      start counts from the end, and either way it is clamped to 0..n. */
  function SliceStart(start: int, n: nat): (c: nat)
    ensures c <= n
  {
    if start < 0 then (if n + start < 0 then 0 else n + start)
    else if start > n then n else start
  }

  /** `array.slice(start)`: the elements from the clamped start on. */
  function SliceFrom<T>(s: seq<T>, start: int): (r: seq<T>)
    ensures var c := SliceStart(start, |s|);
      |r| == |s| - c && forall i :: 0 <= i < |r| ==> r[i] == s[c + i]
  {
    if start < 0 then (if -start <= |s| then s[|s| + start..] else s)
    else if start <= |s| then s[start..] else []
  }

  function IdSet(infos: seq<SnapshotInfo>): set<string> {
    set i | i in infos :: i.id
  }

  /** The store after deleting every id in `ids`. */
  function RemoveIds(snaps: seq<Snapshot>, ids: set<string>): (r: seq<Snapshot>)
    ensures forall s :: s in r <==> s in snaps && s.id !in ids
    ensures DistinctIds(snaps) ==> DistinctIds(r)
  {
    if snaps == [] then []
    else
      var rest := RemoveIds(snaps[1..], ids);
      if snaps[0].id in ids then rest
      else
        assert DistinctIds(snaps) ==> forall t :: t in rest ==> t.id != snaps[0].id;
        [snaps[0]] + rest
  }

  lemma {:induction false} RemoveOneMore(snaps: seq<Snapshot>, ids: set<string>, id: string)
    ensures RemoveIds(RemoveIds(snaps, ids), {id}) == RemoveIds(snaps, ids + {id})
  {
    if snaps != [] {
      RemoveOneMore(snaps[1..], ids, id);
    }
  }

  lemma IdSetPrefix(infos: seq<SnapshotInfo>, i: nat)
    requires i <= |infos|
    ensures i == 0 ==> IdSet(infos[..i]) == {}
    ensures i > 0 ==> IdSet(infos[..i]) == IdSet(infos[..i - 1]) + {infos[i - 1].id}
    ensures i == |infos| ==> infos[..i] == infos
  {
    if i > 0 {
      assert infos[..i] == infos[..i - 1] + [infos[i - 1]];
    }
  }

  lemma {:induction false} RemoveNothing(snaps: seq<Snapshot>)
    ensures RemoveIds(snaps, {}) == snaps
  {
    if snaps != [] {
      RemoveNothing(snaps[1..]);
      assert snaps == [snaps[0]] + snaps[1..];
    }
  }

  /** Ids are keys: two stored snapshots with the same id are the same. */
  lemma SameIdSame(snaps: seq<Snapshot>, s: Snapshot, t: Snapshot)
    requires DistinctIds(snaps) && s in snaps && t in snaps && s.id == t.id
    ensures s == t
  {
    var i :| 0 <= i < |snaps| && snaps[i] == s;
    var j :| 0 <= j < |snaps| && snaps[j] == t;
  }

  /** An id picked from a project's listing belongs to a snapshot of that
      project, which that listing entry describes. */
  lemma ListedIdOwner(snaps: seq<Snapshot>, projectId: string, x: SnapshotInfo) returns (t: Snapshot)
    requires x in Listing(snaps, projectId)
    ensures t in snaps && t.projectId == projectId && Info(t) == x
  {
    ListingExactlyTheProject(snaps, projectId);
    t :| t in snaps && t.projectId == projectId && Info(t) == x;
  }

  /** Cleanup never touches another project's snapshots. */
  lemma CleanupKeepsOtherProjects(snaps: seq<Snapshot>, projectId: string, keepCount: int, other: string)
    requires DistinctIds(snaps) && other != projectId
    ensures var ids := IdSet(SliceFrom(Listing(snaps, projectId), keepCount));
      ProjectSnapshots(RemoveIds(snaps, ids), other) == ProjectSnapshots(snaps, other)
  {
    var list := Listing(snaps, projectId);
    var ids := IdSet(SliceFrom(list, keepCount));
    forall s | s in snaps && s.projectId == other ensures s.id !in ids {
      if s.id in ids {
        var x :| x in SliceFrom(list, keepCount) && x.id == s.id;
        var t := ListedIdOwner(snaps, projectId, x);
        SameIdSame(snaps, s, t);
        assert false;
      }
    }
    ProjectsUnchanged(snaps, ids, other);
  }

  lemma {:induction false} ProjectsUnchanged(snaps: seq<Snapshot>, ids: set<string>, other: string)
    requires forall s :: s in snaps && s.projectId == other ==> s.id !in ids
    ensures ProjectSnapshots(RemoveIds(snaps, ids), other) == ProjectSnapshots(snaps, other)
  {
    if snaps != [] {
      assert forall s :: s in snaps[1..] ==> s in snaps;
      ProjectsUnchanged(snaps[1..], ids, other);
    }
  }

  lemma {:induction false} ProjectSnapshotsDistinct(snaps: seq<Snapshot>, projectId: string)
    requires DistinctIds(snaps)
    ensures DistinctIds(ProjectSnapshots(snaps, projectId))
  {
    if snaps != [] {
      ProjectSnapshotsDistinct(snaps[1..], projectId);
      var rest := ProjectSnapshots(snaps[1..], projectId);
      if snaps[0].projectId == projectId {
        var r := [snaps[0]] + rest;
        forall i, j | 0 <= i < j < |r| ensures r[i].id != r[j].id {
          if i == 0 {
            assert r[j] in rest && r[j] in snaps[1..];
            var k :| 0 <= k < |snaps[1..]| && snaps[1..][k] == r[j];
            assert snaps[k + 1] == r[j];
          } else {
            assert r[i] == rest[i - 1] && r[j] == rest[j - 1];
          }
        }
      }
    }
  }

  /** Distinct ids give each info at most once. */
  lemma {:induction false} InfosOnce(ps: seq<Snapshot>, x: SnapshotInfo)
    requires DistinctIds(ps)
    ensures multiset(Infos(ps))[x] <= 1
  {
    if ps != [] {
      assert DistinctIds(ps[1..]) by {
        forall i, j | 0 <= i < j < |ps[1..]| ensures ps[1..][i].id != ps[1..][j].id {
          assert ps[1..][i] == ps[i + 1] && ps[1..][j] == ps[j + 1];
        }
      }
      InfosOnce(ps[1..], x);
      var rest := Infos(ps[1..]);
      assert Infos(ps) == [Info(ps[0])] + rest;
      if x == Info(ps[0]) {
        forall k | 0 <= k < |rest| ensures rest[k] != x {
          assert rest[k] == Info(ps[k + 1]);
        }
        assert x !in rest;
      }
    }
  }

  /** An element at two positions is counted twice. */
  lemma TwoPositions<T>(s: seq<T>, i: nat, j: nat)
    requires i < j < |s| && s[i] == s[j]
    ensures multiset(s)[s[i]] >= 2
  {
    assert s == s[..j] + s[j..];
    assert s[i] in s[..j];
    assert s[j] == s[j..][0];
  }

  /** With `0 <= keepCount` below the project's count, the project's
      surviving snapshots are exactly the first `keepCount` of the listing:
      each of those survives, every survivor is one of them, and none is
      older than a deleted one. */
  lemma CleanupKeepsTheNewest(snaps: seq<Snapshot>, projectId: string, keepCount: int)
    requires DistinctIds(snaps) && 0 <= keepCount < |Listing(snaps, projectId)|
    ensures var list := Listing(snaps, projectId);
      var after := RemoveIds(snaps, IdSet(list[keepCount..]));
      && (forall s :: s in after && s.projectId == projectId ==> Info(s) in list[..keepCount])
      && (forall x :: x in list[..keepCount] ==> exists s :: s in after && s.projectId == projectId && Info(s) == x)
      && (forall s, t :: s in after && s.projectId == projectId && t in snaps && t.projectId == projectId && t !in after
            ==> s.createdAt >= t.createdAt)
  {
    var list := Listing(snaps, projectId);
    var ids := IdSet(list[keepCount..]);
    var after := RemoveIds(snaps, ids);
    ListingExactlyTheProject(snaps, projectId);
    forall s | s in after && s.projectId == projectId
      ensures exists k :: 0 <= k < keepCount && list[k] == Info(s)
    {
      var k :| 0 <= k < |list| && list[k] == Info(s);
    }
    forall s | s in after && s.projectId == projectId ensures Info(s) in list[..keepCount] {
      var k :| 0 <= k < keepCount && list[k] == Info(s);
      assert list[..keepCount][k] == Info(s);
    }
    forall s, t | s in after && s.projectId == projectId && t in snaps && t.projectId == projectId && t !in after
      ensures s.createdAt >= t.createdAt
    {
      var k :| 0 <= k < keepCount && list[k] == Info(s);
      var x :| x in list[keepCount..] && x.id == t.id;
      var t' := ListedIdOwner(snaps, projectId, x);
      SameIdSame(snaps, t, t');
      var j :| keepCount <= j < |list| && list[j] == x;
      assert InfoCreatedAt(list[k]) >= InfoCreatedAt(list[j]);
    }
    forall x | x in list[..keepCount]
      ensures exists s :: s in after && s.projectId == projectId && Info(s) == x
    {
      var s := KeptSurvives(snaps, projectId, keepCount, x);
    }
  }

  /** An entry among the first `keepCount` of the listing describes a
      snapshot that cleanup keeps: ids are distinct, so its id is not among
      those of the deleted tail. */
  lemma KeptSurvives(snaps: seq<Snapshot>, projectId: string, keepCount: int, x: SnapshotInfo) returns (t: Snapshot)
    requires DistinctIds(snaps) && 0 <= keepCount < |Listing(snaps, projectId)|
    requires x in Listing(snaps, projectId)[..keepCount]
    ensures var list := Listing(snaps, projectId);
      t in RemoveIds(snaps, IdSet(list[keepCount..])) && t.projectId == projectId && Info(t) == x
  {
    var list := Listing(snaps, projectId);
    var ids := IdSet(list[keepCount..]);
    var k :| 0 <= k < keepCount && list[..keepCount][k] == x;
    assert list[k] == x;
    t := ListedIdOwner(snaps, projectId, x);
    if t.id in ids {
      var y :| y in list[keepCount..] && y.id == t.id;
      var t' := ListedIdOwner(snaps, projectId, y);
      SameIdSame(snaps, t, t');
      var j :| keepCount <= j < |list| && list[j] == y;
      TwoPositions(list, k, j);
      ProjectSnapshotsDistinct(snaps, projectId);
      InfosOnce(ProjectSnapshots(snaps, projectId), x);
      assert false;
    }
  }
  // ---------------------------------------------------------------------
  // The device key, the auth gate and the cipher

  /** getDeviceKey: refused while encryption is disabled; a stored key is
      returned as it is; otherwise the generated key (None when the
      platform fails to generate one) is stored and returned. */
  function KeyStep(stored: Option<DeviceKey>, enabled: bool, generated: Option<KeyHandle>, now: int)
    : (r: (Result<KeyHandle, VaultError>, Option<DeviceKey>))
    ensures !enabled ==> r == (Failure(EncryptionDisabled), stored)
    ensures stored.Some? ==> r.1 == stored
    ensures r.0.Success? ==> r.1.Some? && r.1.value.key == r.0.value
    ensures enabled && stored.Some? ==> r == (Success(stored.value.key), stored)
    ensures enabled && stored.None? && generated.None? ==> r == (Failure(KeyGenerationError), None)
    ensures enabled && stored.None? && generated.Some? ==>
      r == (Success(generated.value), Some(DeviceKey(generated.value, now)))
  {
    if !enabled then (Failure(EncryptionDisabled), stored)
    else if stored.Some? then (Success(stored.value.key), stored)
    else match generated
      case None => (Failure(KeyGenerationError), None)
      case Some(k) => (Success(k), Some(DeviceKey(k, now)))
  }

  /** One device key for the life of the store: once a key is handed out,
      every later request hands out that key and stores nothing new. */
  lemma KeyIsStable(stored: Option<DeviceKey>, g1: Option<KeyHandle>, g2: Option<KeyHandle>, now1: int, now2: int)
    requires KeyStep(stored, true, g1, now1).0.Success?
    ensures var first := KeyStep(stored, true, g1, now1);
      KeyStep(first.1, true, g2, now2) == first
  {
  }

  /** Whether the optional auth gate lets a vault operation through: the
      newer service must hold a session that has not expired. */
  predicate GateOpen(gateEnabled: bool, current: Option<AppAuth.Session>, now: int) {
    !gateEnabled || (current.Some? && !AppAuth.HolderExpired(current.value, now))
  }

  /** The newer service's held session after the gate asked for it: an
      expired one is dropped. */
  function GateAfter(gateEnabled: bool, current: Option<AppAuth.Session>, now: int): (r: Option<AppAuth.Session>)
    ensures !gateEnabled ==> r == current
    ensures gateEnabled ==> (r.Some? <==> GateOpen(gateEnabled, current, now))
    ensures r.Some? ==> r == current
  {
    if gateEnabled && current.Some? && AppAuth.HolderExpired(current.value, now) then None else current
  }

  /** encryptData: the gate, then the key, then AES-GCM under a fresh IV.
      Gives the ciphertext with its IV, and the key store afterwards. */
  function Seal(open: bool, enabled: bool, stored: Option<DeviceKey>, generated: Option<KeyHandle>, now: int,
                aead: Aead, data: string, iv: Bytes)
    : (r: (Result<(Bytes, Bytes), VaultError>, Option<DeviceKey>))
    requires |iv| == IV_LENGTH
    ensures !open ==> r == (Failure(VaultLocked), stored)
    ensures open ==> r.1 == KeyStep(stored, enabled, generated, now).1
    ensures r.0.Success? ==>
      && r.1.Some? && r.0.value.1 == iv && |r.0.value.1| == IV_LENGTH
      && aead.encrypt(r.1.value.key, data, iv) == Some(r.0.value.0)
    ensures open && KeyStep(stored, enabled, generated, now).0.Success? ==>
      var k := KeyStep(stored, enabled, generated, now).0.value;
      r.0 == if aead.encrypt(k, data, iv).Some? then Success((aead.encrypt(k, data, iv).value, iv)) else Failure(EncryptionError)
    ensures open && KeyStep(stored, enabled, generated, now).0.Failure? ==>
      r.0 == Failure(KeyStep(stored, enabled, generated, now).0.error)
  {
    if !open then (Failure(VaultLocked), stored)
    else
      var (k, dk) := KeyStep(stored, enabled, generated, now);
      if k.Failure? then (Failure(k.error), dk)
      else match aead.encrypt(k.value, data, iv)
        case None => (Failure(EncryptionError), dk)
        case Some(c) => (Success((c, iv)), dk)
  }

  /** decryptData: the gate, then the key, then AES-GCM decryption. */
  function Unseal(open: bool, enabled: bool, stored: Option<DeviceKey>, generated: Option<KeyHandle>, now: int,
                  aead: Aead, encrypted: Bytes, iv: Bytes)
    : (r: (Result<string, VaultError>, Option<DeviceKey>))
    ensures !open ==> r == (Failure(VaultLocked), stored)
    ensures open ==> r.1 == KeyStep(stored, enabled, generated, now).1
    ensures r.0.Success? ==> r.1.Some? && aead.decrypt(r.1.value.key, encrypted, iv) == Some(r.0.value)
    ensures open && KeyStep(stored, enabled, generated, now).0.Success? ==>
      var k := KeyStep(stored, enabled, generated, now).0.value;
      r.0 == if aead.decrypt(k, encrypted, iv).Some? then Success(aead.decrypt(k, encrypted, iv).value) else Failure(DecryptionError)
    ensures open && KeyStep(stored, enabled, generated, now).0.Failure? ==>
      r.0 == Failure(KeyStep(stored, enabled, generated, now).0.error)
  {
    if !open then (Failure(VaultLocked), stored)
    else
      var (k, dk) := KeyStep(stored, enabled, generated, now);
      if k.Failure? then (Failure(k.error), dk)
      else match aead.decrypt(k.value, encrypted, iv)
        case None => (Failure(DecryptionError), dk)
        case Some(text) => (Success(text), dk)
  }

  /** What was sealed unseals to the same text, under the key store the
      sealing left behind, whatever key the platform would generate next. */
  lemma SealThenUnseal(stored: Option<DeviceKey>, g1: Option<KeyHandle>, g2: Option<KeyHandle>, now1: int, now2: int,
                       aead: Aead, data: string, iv: Bytes)
    requires AeadSound(aead) && |iv| == IV_LENGTH
    requires Seal(true, true, stored, g1, now1, aead, data, iv).0.Success?
    ensures var sealed := Seal(true, true, stored, g1, now1, aead, data, iv);
      Unseal(true, true, sealed.1, g2, now2, aead, sealed.0.value.0, sealed.0.value.1) == (Success(data), sealed.1)
  {
    var sealed := Seal(true, true, stored, g1, now1, aead, data, iv);
    KeyIsStable(stored, g1, g2, now1, now2);
  }

  /** A snapshot id always has a non-blank trim, so getSnapshot accepts
      every id createSnapshot returns. */
  lemma SnapshotIdNotBlank(projectId: string, now: int, t: SnapshotType)
    ensures Trim(SnapshotId(projectId, now, t)) != ""
  {
    var id := SnapshotId(projectId, now, t);
    var underscore := (c: char) => c == '_';
    assert id[|projectId|] == '_';
    assert AnyChar(id, underscore);
    TrimKeepsNonSpace(id, underscore);
  }

  /** createSnapshot followed by getSnapshot: the stored record is found
      under the returned id and decrypts to the serialized data. */
  lemma CreatedSnapshotReadsBack(snaps: seq<Snapshot>, stored: Option<DeviceKey>, g1: Option<KeyHandle>,
                                 g2: Option<KeyHandle>, now1: int, now2: int, aead: Aead, data: string, iv: Bytes,
                                 projectId: string, t: SnapshotType)
    requires DistinctIds(snaps) && AeadSound(aead) && |iv| == IV_LENGTH
    requires Seal(true, true, stored, g1, now1, aead, data, iv).0.Success?
    ensures var sealed := Seal(true, true, stored, g1, now1, aead, data, iv);
      var s := Snapshot(SnapshotId(projectId, now1, t), projectId, sealed.0.value.0, sealed.0.value.1, now1, t);
      && Trim(s.id) != ""
      && Find(Put(snaps, s), s.id) == Some(s)
      && Unseal(true, true, sealed.1, g2, now2, aead, s.encryptedData, s.iv) == (Success(data), sealed.1)
  {
    SnapshotIdNotBlank(projectId, now1, t);
    SealThenUnseal(stored, g1, g2, now1, now2, aead, data, iv);
  }

  // ---------------------------------------------------------------------
  // The vault

  class DeviceVault {
    var deviceKey: Option<DeviceKey>
    var snapshots: seq<Snapshot>
    /** The `vault_encryption` flag. */
    const encryptionEnabled: bool
    /** The `auth_gate_vault` flag. */
    const authGateEnabled: bool
    /** The newer authentication service, whose session the gate asks for. */
    const auth: AppAuth.AuthService

    /** The snapshot store is keyed by id. */
    ghost predicate Valid()
      reads this
    {
      DistinctIds(snapshots)
    }

    constructor (encryptionEnabled: bool, authGateEnabled: bool, auth: AppAuth.AuthService)
      ensures this.encryptionEnabled == encryptionEnabled && this.authGateEnabled == authGateEnabled
      ensures this.auth == auth && deviceKey == None && snapshots == []
      ensures Valid()
    {
      this.encryptionEnabled := encryptionEnabled;
      this.authGateEnabled := authGateEnabled;
      this.auth := auth;
      deviceKey := None;
      snapshots := [];
    }

    method GetDeviceKey(generated: Option<KeyHandle>, now: int) returns (r: Result<KeyHandle, VaultError>)
      modifies this
      ensures (r, deviceKey) == KeyStep(old(deviceKey), encryptionEnabled, generated, now)
      ensures snapshots == old(snapshots)
    {
      if !encryptionEnabled {
        return Failure(EncryptionDisabled);
      }
      if deviceKey.Some? {
        return Success(deviceKey.value.key);
      }
      if generated.None? {
        return Failure(KeyGenerationError);
      }
      deviceKey := Some(DeviceKey(generated.value, now));
      r := Success(generated.value);
    }

    /** The gate both encryptData and decryptData open with. */
    method CheckAuthGate(now: int) returns (open: bool)
      modifies auth
      ensures open == GateOpen(authGateEnabled, old(auth.current), now)
      ensures auth.current == GateAfter(authGateEnabled, old(auth.current), now)
    {
      open := true;
      if authGateEnabled {
        var session := auth.CurrentSession(now);
        open := session.Some?;
      }
    }

    method EncryptData(data: string, iv: Bytes, generated: Option<KeyHandle>, aead: Aead, now: int)
      returns (r: Result<(Bytes, Bytes), VaultError>)
      requires |iv| == IV_LENGTH
      modifies this, auth
      ensures (r, deviceKey) == Seal(GateOpen(authGateEnabled, old(auth.current), now), encryptionEnabled,
                                     old(deviceKey), generated, now, aead, data, iv)
      ensures auth.current == GateAfter(authGateEnabled, old(auth.current), now)
      ensures snapshots == old(snapshots)
    {
      var open := CheckAuthGate(now);
      if !open {
        return Failure(VaultLocked);
      }
      var key := GetDeviceKey(generated, now);
      if key.Failure? {
        return Failure(key.error);
      }
      var encrypted := aead.encrypt(key.value, data, iv);
      if encrypted.None? {
        return Failure(EncryptionError);
      }
      r := Success((encrypted.value, iv));
    }

    method DecryptData(encrypted: Bytes, iv: Bytes, generated: Option<KeyHandle>, aead: Aead, now: int)
      returns (r: Result<string, VaultError>)
      modifies this, auth
      ensures (r, deviceKey) == Unseal(GateOpen(authGateEnabled, old(auth.current), now), encryptionEnabled,
                                       old(deviceKey), generated, now, aead, encrypted, iv)
      ensures auth.current == GateAfter(authGateEnabled, old(auth.current), now)
      ensures snapshots == old(snapshots)
    {
      var open := CheckAuthGate(now);
      if !open {
        return Failure(VaultLocked);
      }
      var key := GetDeviceKey(generated, now);
      if key.Failure? {
        return Failure(key.error);
      }
      var text := aead.decrypt(key.value, encrypted, iv);
      if text.None? {
        return Failure(DecryptionError);
      }
      r := Success(text.value);
    }

    /** createSnapshot: `data` is already serialized (None when it cannot
        be). Validation errors are raised; every failure of the encryption
        step is swallowed into the empty id. */
    method CreateSnapshot(projectId: string, data: Option<string>, iv: Bytes,
                          generated: Option<KeyHandle>, aead: Aead, now: int, t: SnapshotType := Manual)
      returns (r: Result<string, VaultError>)
      requires Valid() && |iv| == IV_LENGTH
      modifies this, auth
      ensures Valid()
      ensures !encryptionEnabled ==>
        r == Success("") && deviceKey == old(deviceKey) && snapshots == old(snapshots) && auth.current == old(auth.current)
      ensures encryptionEnabled ==>
        var v := ValidateUlid(Str(projectId));
        var d := ValidateJsonData(data);
        && (v.Invalid? ==>
              r == Failure(InvalidProjectId("Invalid project ID: " + v.error))
              && deviceKey == old(deviceKey) && snapshots == old(snapshots) && auth.current == old(auth.current))
        && (v.Valid? && d.Invalid? ==>
              r == Failure(InvalidData("Invalid data: " + d.error))
              && deviceKey == old(deviceKey) && snapshots == old(snapshots) && auth.current == old(auth.current))
        && (v.Valid? && d.Valid? ==>
              var sealed := Seal(GateOpen(authGateEnabled, old(auth.current), now), true, old(deviceKey),
                                 generated, now, aead, d.sanitized, iv);
              && deviceKey == sealed.1
              && auth.current == GateAfter(authGateEnabled, old(auth.current), now)
              && (sealed.0.Failure? ==> r == Success("") && snapshots == old(snapshots))
              && (sealed.0.Success? ==>
                    var s := Snapshot(SnapshotId(projectId, now, t), projectId, sealed.0.value.0, sealed.0.value.1, now, t);
                    r == Success(s.id) && snapshots == Put(old(snapshots), s)))
    {
      if !encryptionEnabled {
        return Success("");
      }
      var v := ValidateUlid(Str(projectId));
      if v.Invalid? {
        return Failure(InvalidProjectId("Invalid project ID: " + v.error));
      }
      var d := ValidateJsonData(data);
      if d.Invalid? {
        return Failure(InvalidData("Invalid data: " + d.error));
      }
      var sealed := EncryptData(d.sanitized, iv, generated, aead, now);
      if sealed.Failure? {
        return Success("");
      }
      var s := Snapshot(SnapshotId(projectId, now, t), projectId, sealed.value.0, sealed.value.1, now, t);
      snapshots := Put(snapshots, s);
      r := Success(s.id);
    }

    /** getSnapshot: a disabled vault answers nothing; a non-string or
        blank id is refused; an unknown id gives nothing; the decryption
        step's errors reach the caller. */
    method GetSnapshot(snapshotId: JsValue, generated: Option<KeyHandle>, aead: Aead, now: int)
      returns (r: Result<Option<string>, VaultError>)
      modifies this, auth
      ensures snapshots == old(snapshots)
      ensures !encryptionEnabled ==>
        r == Success(None) && deviceKey == old(deviceKey) && auth.current == old(auth.current)
      ensures encryptionEnabled && (snapshotId.NonString? || Trim(snapshotId.s) == "") ==>
        r == Failure(InvalidSnapshotId) && deviceKey == old(deviceKey) && auth.current == old(auth.current)
      ensures encryptionEnabled && snapshotId.Str? && Trim(snapshotId.s) != "" ==>
        var found := Find(old(snapshots), snapshotId.s);
        && (found.None? ==> r == Success(None) && deviceKey == old(deviceKey) && auth.current == old(auth.current))
        && (found.Some? ==>
              var unsealed := Unseal(GateOpen(authGateEnabled, old(auth.current), now), true, old(deviceKey),
                                   generated, now, aead, found.value.encryptedData, found.value.iv);
              && deviceKey == unsealed.1
              && auth.current == GateAfter(authGateEnabled, old(auth.current), now)
              && r == (if unsealed.0.Success? then Success(Some(unsealed.0.value)) else Failure(unsealed.0.error)))
    {
      if !encryptionEnabled {
        return Success(None);
      }
      if snapshotId.NonString? || Trim(snapshotId.s) == "" {
        return Failure(InvalidSnapshotId);
      }
      var found := Find(snapshots, snapshotId.s);
      if found.None? {
        return Success(None);
      }
      var text := DecryptData(found.value.encryptedData, found.value.iv, generated, aead, now);
      if text.Failure? {
        return Failure(text.error);
      }
      r := Success(Some(text.value));
    }

    /** listSnapshots: the project's snapshots, newest first. */
    function ListSnapshots(projectId: string): (r: seq<SnapshotInfo>)
      reads this
      ensures !encryptionEnabled ==> r == []
      ensures encryptionEnabled ==> Sorting.SortedDesc(r, InfoCreatedAt)
      ensures encryptionEnabled ==> multiset(r) == multiset(Infos(ProjectSnapshots(snapshots, projectId)))
    {
      if !encryptionEnabled then [] else Listing(snapshots, projectId)
    }

    /** cleanupSnapshots: when the project has more than `keepCount`
        snapshots, the listing from position `keepCount` on (as
        `Array.prototype.slice` reads it) is deleted one id at a time. */
    method CleanupSnapshots(projectId: string, keepCount: int := DEFAULT_KEEP_COUNT)
      requires Valid()
      modifies this
      ensures Valid()
      ensures deviceKey == old(deviceKey)
      ensures var list := Listing(old(snapshots), projectId);
        snapshots == if !encryptionEnabled || |list| <= keepCount then old(snapshots)
                     else RemoveIds(old(snapshots), IdSet(SliceFrom(list, keepCount)))
    {
      var list := ListSnapshots(projectId);
      if !encryptionEnabled || |list| <= keepCount {
        return;
      }
      var toDelete := SliceFrom(list, keepCount);
      ghost var before := snapshots;
      RemoveNothing(before);
      IdSetPrefix(toDelete, 0);
      for i := 0 to |toDelete|
        invariant snapshots == RemoveIds(before, IdSet(toDelete[..i]))
        invariant deviceKey == old(deviceKey)
      {
        RemoveOneMore(before, IdSet(toDelete[..i]), toDelete[i].id);
        IdSetPrefix(toDelete, i + 1);
        snapshots := RemoveIds(snapshots, {toDelete[i].id});
      }
      assert toDelete[..|toDelete|] == toDelete;
    }
  }
}
