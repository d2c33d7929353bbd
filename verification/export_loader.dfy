/**
  The load step of the legacy migration (src/db/legacy-migration/migrate.ts:33-41, 78-121):
  every export file's parsed lines are appended to the in-memory collection
  its file name selects; a file with any other name is ignored.
 */
module ExportLoader {
  import opened Wrappers
  import opened Js

  /** The nine legacy collections, one per recognised export file. */
  datatype Collection =
    | AdminPermission | BlackWhiteList | DisplayChannels | LastPulled | Priority
    | QueueChannels | QueueGuilds | QueueMembers | Schedules

  /** The export file whose lines belong to a collection. */
  function FileName(c: Collection): string
  {
    match c
    case AdminPermission => "admin_permission.csv"
    case BlackWhiteList => "black_white_list.csv"
    case DisplayChannels => "display_channels.csv"
    case LastPulled => "last_pulled.csv"
    case Priority => "priority.csv"
    case QueueChannels => "queue_channels.csv"
    case QueueGuilds => "queue_guilds.csv"
    case QueueMembers => "queue_members.csv"
    case Schedules => "schedules.csv"
  }

  /** The `switch (file)` dispatch: the collection a file name selects, if any. */
  function CollectionFor(fileName: string): (c: Option<Collection>)
    ensures c.Some? ==> FileName(c.value) == fileName
    ensures c.None? ==> forall d: Collection :: FileName(d) != fileName
  {
    match fileName
    case "admin_permission.csv" => Some(AdminPermission)
    case "black_white_list.csv" => Some(BlackWhiteList)
    case "display_channels.csv" => Some(DisplayChannels)
    case "last_pulled.csv" => Some(LastPulled)
    case "priority.csv" => Some(Priority)
    case "queue_channels.csv" => Some(QueueChannels)
    case "queue_guilds.csv" => Some(QueueGuilds)
    case "queue_members.csv" => Some(QueueMembers)
    case "schedules.csv" => Some(Schedules)
    case _ => None
  }

  /** Each collection's file name is recognised as that collection and no other. */
  lemma FileNameRecognised(c: Collection)
    ensures CollectionFor(FileName(c)) == Some(c)
  {
  }

  /** One export file, as the CSV parser delivered it: its name and its data lines in file order. */
  datatype ExportFile = ExportFile(name: string, rows: seq<CsvRow>)

  /** The nine collections' contents at one moment. */
  datatype LegacyTables = LegacyTables(
    adminPermission: seq<CsvRow>,
    blackWhiteList: seq<CsvRow>,
    displayChannels: seq<CsvRow>,
    lastPulled: seq<CsvRow>,
    priority: seq<CsvRow>,
    queueChannels: seq<CsvRow>,
    queueGuilds: seq<CsvRow>,
    queueMembers: seq<CsvRow>,
    schedules: seq<CsvRow>)
  {
    function Get(c: Collection): seq<CsvRow>
    {
      match c
      case AdminPermission => adminPermission
      case BlackWhiteList => blackWhiteList
      case DisplayChannels => displayChannels
      case LastPulled => lastPulled
      case Priority => priority
      case QueueChannels => queueChannels
      case QueueGuilds => queueGuilds
      case QueueMembers => queueMembers
      case Schedules => schedules
    }
  }

  /** The lines that the given files, handled in order, add to collection `c`. */
  function RowsFor(files: seq<ExportFile>, c: Collection): (r: seq<CsvRow>)
    ensures forall x :: x in r <==> exists i :: 0 <= i < |files| && files[i].name == FileName(c) && x in files[i].rows
    decreases |files|
  {
    if files == [] then []
    else
      var last := files[|files| - 1];
      assert forall i :: 0 <= i < |files| - 1 ==> files[..|files| - 1][i] == files[i];
      RowsFor(files[..|files| - 1], c) + (if last.name == FileName(c) then last.rows else [])
  }

  predicate DistinctNames(files: seq<ExportFile>)
  {
    forall i, j :: 0 <= i < j < |files| ==> files[i].name != files[j].name
  }

  /** A file name selects a collection exactly when it is that collection's file name. */
  lemma SelectsExactly(name: string, c: Collection)
    ensures CollectionFor(name) == Some(c) <==> name == FileName(c)
  {
    FileNameRecognised(c);
  }

  /** A collection that no file is named for receives nothing. */
  lemma {:induction false} RowsForUnnamed(files: seq<ExportFile>, c: Collection)
    requires forall i :: 0 <= i < |files| ==> files[i].name != FileName(c)
    ensures RowsFor(files, c) == []
    decreases |files|
  {
    if files != [] {
      RowsForUnnamed(files[..|files| - 1], c);
    }
  }

  /**
    In a directory every file name occurs once, so a collection receives the
    lines of the one file named for it: the order in which the concurrent
    parses finish does not matter.
   */
  lemma {:induction false} RowsForNamed(files: seq<ExportFile>, c: Collection, i: nat)
    requires DistinctNames(files)
    requires i < |files| && files[i].name == FileName(c)
    ensures RowsFor(files, c) == files[i].rows
    decreases |files|
  {
    var init := files[..|files| - 1];
    if i == |files| - 1 {
      RowsForUnnamed(init, c);
    } else {
      assert init[i] == files[i];
      RowsForNamed(init, c, i);
    }
  }

  /** Handling one more file extends a collection by that file's lines when the file is named for it. */
  lemma RowsForStep(files: seq<ExportFile>, i: nat, c: Collection)
    requires i < |files|
    ensures RowsFor(files[..i + 1], c)
            == RowsFor(files[..i], c) + (if files[i].name == FileName(c) then files[i].rows else [])
  {
    assert files[..i + 1][..i] == files[..i];
  }

  /** The module-level arrays the load step appends to. */
  class LegacyExport {
    var adminPermission: seq<CsvRow>
    var blackWhiteList: seq<CsvRow>
    var displayChannels: seq<CsvRow>
    var lastPulled: seq<CsvRow>
    var priority: seq<CsvRow>
    var queueChannels: seq<CsvRow>
    var queueGuilds: seq<CsvRow>
    var queueMembers: seq<CsvRow>
    var schedules: seq<CsvRow>

    /** The collections start empty when the module loads. */
    constructor ()
      ensures forall c :: Tables().Get(c) == []
    {
      adminPermission, blackWhiteList, displayChannels := [], [], [];
      lastPulled, priority, queueChannels := [], [], [];
      queueGuilds, queueMembers, schedules := [], [], [];
    }

    function Tables(): LegacyTables
      reads this
    {
      LegacyTables(adminPermission, blackWhiteList, displayChannels, lastPulled, priority,
                   queueChannels, queueGuilds, queueMembers, schedules)
    }

    /**
      The `end` handler of one file's stream: its lines go, in order, to the
      collection its name selects; every other collection is unchanged.
     */
    method AppendFile(file: ExportFile)
      modifies this
      ensures forall c ::
        Tables().Get(c) == old(Tables().Get(c)) + (if file.name == FileName(c) then file.rows else [])
    {
      match file.name {
        case "admin_permission.csv" => adminPermission := adminPermission + file.rows;
        case "black_white_list.csv" => blackWhiteList := blackWhiteList + file.rows;
        case "display_channels.csv" => displayChannels := displayChannels + file.rows;
        case "last_pulled.csv" => lastPulled := lastPulled + file.rows;
        case "priority.csv" => priority := priority + file.rows;
        case "queue_channels.csv" => queueChannels := queueChannels + file.rows;
        case "queue_guilds.csv" => queueGuilds := queueGuilds + file.rows;
        case "queue_members.csv" => queueMembers := queueMembers + file.rows;
        case "schedules.csv" => schedules := schedules + file.rows;
        case _ =>
      }
    }

    /** `loadExportData`: every file of the export directory handled in turn. */
    method LoadExportData(files: seq<ExportFile>)
      modifies this
      ensures forall c :: Tables().Get(c) == old(Tables().Get(c)) + RowsFor(files, c)
    {
      ghost var start := Tables();
      for i := 0 to |files|
        invariant forall c :: Tables().Get(c) == start.Get(c) + RowsFor(files[..i], c)
      {
        AppendFile(files[i]);
        forall c: Collection
          ensures Tables().Get(c) == start.Get(c) + RowsFor(files[..i + 1], c)
        {
          RowsForStep(files, i, c);
        }
      }
      assert files[..|files|] == files;
    }
  }
}
