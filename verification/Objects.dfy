/** The tools on one object: describe with read-repair, ingest and forget. */
module Objects {
  import opened Common
  import C = Catalog
  import R = Registry

  datatype Described =
    | Found(row: R.Row, tags: seq<string>, parents: set<Label>, schema: C.Schema)
    | NotFound
    | RegistryFailed

  /** Full metadata of an object. While both stores answer, this succeeds exactly when the table
    * exists, never changes a row that is there, and leaves a live table with a row. */
  method DescribeObject(cat: C.Store, reg: R.Store, k: Key, now: nat) returns (r: Described)
    modifies reg
    ensures r.Found? ==>
      && k in cat.tables && k in reg.objects && r.schema == cat.tables[k].schema
      && r.row == reg.objects[k] && R.IsSortedListing(r.tags, R.TagsOf(reg.View(), k)) && r.parents == R.ParentsOf(reg.View(), k)
    ensures r.Found? && k !in old(reg.objects) ==>
      r.row == R.Row(R.Reconciled, None, None, now, now) && r.tags == []
    ensures reg.View() ==
      if k !in old(reg.objects) && k in cat.tables && r != RegistryFailed
      then R.Recorded(old(reg.View()), k, R.Stub, None, now) else old(reg.View())
    ensures old(reg.failAfter) == None ==> r != RegistryFailed && (r.Found? <==> k in cat.tables) && reg.failAfter == None
  {
    var got := reg.GetObject(k);
    if got.None? {
      if k !in cat.tables {
        return NotFound;
      }
      var ok := reg.RecordObject(k, R.Stub, now);
      if !ok {
        return RegistryFailed;
      }
      got := reg.GetObject(k);
      R.NoElements(got.value.1);
      assert R.Elements(got.value.1) == {};
    }
    if k !in cat.tables {
      return NotFound;
    }
    r := Found(got.value.0, got.value.1, R.ParentsOf(reg.View(), k), cat.tables[k].schema);
  }

  datatype Ingested = Stored | MetadataPending | Refused(error: C.Error) | DataFailed | RegistryRaised

  /** Data first, metadata second. If the registry cannot be reached the data stays and the object
    * is reported as pending; a refused write leaves both stores alone; a broken one leaves at most the
    * table it was to make, still empty. */
  method IngestObject(cat: C.Store, reg: R.Store, k: Key, schema: C.Schema, rows: seq<C.Record>, mode: C.Mode,
                      entry: R.Entry, now: nat) returns (r: Ingested)
    modifies cat, reg
    ensures
      var w := C.Write(mode, old(cat.Get(k)), schema, rows);
      match r
      case Stored => w.Ok? && cat.tables == old(cat.tables)[k := w.table]
                     && reg.View() == R.Recorded(old(reg.View()), k, entry, None, now)
      case MetadataPending => w.Ok? && cat.tables == old(cat.tables)[k := w.table]
                              && reg.View() == old(reg.View()) && old(reg.down)
      case RegistryRaised => w.Ok? && cat.tables == old(cat.tables)[k := w.table]
                             && reg.View() == old(reg.View()) && !old(reg.down)
      case Refused(e) => w == C.Err(e) && cat.tables == old(cat.tables) && reg.View() == old(reg.View())
      case DataFailed =>
        (w.Ok? && reg.View() == old(reg.View())
         && (cat.tables == old(cat.tables)
             || (k !in old(cat.tables) && cat.tables == old(cat.tables)[k := C.NewTable(schema)])))
    ensures old(cat.commitsLeft) == None && old(reg.failAfter) == None ==> r.Stored? || r.Refused?
  {
    var written := cat.WriteArrow(k, schema, rows, mode);
    match written
    case Raised(e) => r := Refused(e);
    case Broken => r := DataFailed;
    case Done =>
      var outcome := reg.RecordObjectGuarded(k, entry, None, now);
      r := match outcome case Committed => Stored case Pending => MetadataPending case Raised => RegistryRaised;
  }

  datatype Dropped = Forgotten | NoSuchObject | RowLeftBehind

  /** The table goes first. If the registry fails then, a row without a table is left, which is
    * what the sweeper collects. */
  method DropObject(cat: C.Store, reg: R.Store, k: Key) returns (r: Dropped)
    modifies cat, reg
    ensures r == NoSuchObject <==> k !in old(cat.tables)
    ensures cat.tables == old(cat.tables) - {k}
    ensures reg.View() == if r == Forgotten then R.Deleted(old(reg.View()), k) else old(reg.View())
    ensures old(reg.failAfter) == None ==> r != RowLeftBehind
  {
    var found := cat.DropTable(k);
    if !found {
      return NoSuchObject;
    }
    var ok := reg.DeleteObject(k);
    r := if ok then Forgotten else RowLeftBehind;
  }
}
