/** The registry `self.installed_apps`: application name to the record
    `{path, install_date}` install writes, and the two updates made to it. */
module Registry {

  /** One registry record: where the copied bundle lives and when it was
      installed (an ISO-8601 timestamp, passed in by the caller). */
  datatype AppRecord = AppRecord(path: string, installDate: string)

  type Apps = map<string, AppRecord>

  /** What `load_installed_apps` finds at `installed_apps.json`: no file, a
      file that cannot be read or decoded, or a decoded registry. */
  datatype StoredRegistry = Missing | Unreadable | Stored(apps: Apps)

  /** `after` is `before` with `name` (re)bound to `record`, every other
      record unchanged. */
  ghost predicate RecordSet(before: Apps, after: Apps, name: string, record: AppRecord)
  {
    && after.Keys == before.Keys + {name}
    && after[name] == record
    && (forall k :: k in before && k != name ==> after[k] == before[k])
  }

  /** `installed_apps[name] = record`: a new record, or a replacement. */
  function Upsert(apps: Apps, name: string, record: AppRecord): (r: Apps)
    ensures RecordSet(apps, r, name, record)
  {
    apps[name := record]
  }

  /** Deleting a name that was freshly bound gives the registry back. */
  lemma UpsertThenDelete(before: Apps, after: Apps, name: string, record: AppRecord)
    requires RecordSet(before, after, name, record) && name !in before
    ensures after - {name} == before
  {
    assert (after - {name}).Keys == before.Keys;
  }

  /** Binding a name twice keeps only the second record. */
  lemma UpsertTwice(apps: Apps, name: string, first: AppRecord, second: AppRecord)
    ensures Upsert(Upsert(apps, name, first), name, second) == Upsert(apps, name, second)
  {
    var twice, once := Upsert(Upsert(apps, name, first), name, second), Upsert(apps, name, second);
    assert twice.Keys == once.Keys;
  }

  /** `installed_apps[to] = installed_apps.pop(from)`. */
  function MoveKey(apps: Apps, from: string, to: string): (moved: Apps)
    requires from in apps
    ensures moved.Keys == apps.Keys - {from} + {to}
    ensures moved[to] == apps[from]
    ensures forall k :: k in moved && k != to ==> moved[k] == apps[k]
  {
    (apps - {from})[to := apps[from]]
  }

  /** Moving a record to a fresh name and back restores the registry. */
  lemma MoveKeyBack(apps: Apps, a: string, b: string)
    requires a in apps && b !in apps
    ensures MoveKey(MoveKey(apps, a, b), b, a) == apps
  {
    var back := MoveKey(MoveKey(apps, a, b), b, a);
    assert back.Keys == apps.Keys;
  }

  /** Moving onto a name that is already registered replaces that record:
      one record fewer afterwards. */
  lemma MoveKeyOntoTaken(apps: Apps, a: string, b: string)
    requires a in apps && b in apps && a != b
    ensures |MoveKey(apps, a, b)| == |apps| - 1
    ensures MoveKey(apps, a, b)[b] == apps[a]
  {
    assert MoveKey(apps, a, b).Keys == apps.Keys - {a};
  }
}
