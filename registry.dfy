/** The model registry: a map from model id to a bundle tagged with its
    modality, filled by `load_all` from two fixed id-to-file tables. The
    file system is an input: which paths exist, which loaded pipelines carry
    `feature_names_in_`, and what a sidecar column file parses to. */
module Registry {
  import opened Common
  import opened Strings

  /** The torch device an image model is moved to. */
  datatype Device = Cuda | Cpu {
    function Name(): string {
      match this
      case Cuda => "cuda"
      case Cpu => "cpu"
    }
  }

  /** `"cuda" if torch.cuda.is_available() else "cpu"`. */
  function ChooseDevice(cudaAvailable: bool): (d: Device)
    ensures d == Cuda <==> cudaAvailable
    ensures d.Name() == "cuda" <==> cudaAvailable
  {
    if cudaAvailable then Cuda else Cpu
  }

  /** A registry entry. The loaded model object itself is not part of the
      model; the prediction it makes is an input of the request handlers. */
  datatype Bundle = Tabular(cols: seq<string>) | Image(device: Device, labels: Option<seq<string>>) {
    /** The entry's `"type"` tag. */
    function TypeName(): string {
      match this
      case Tabular(_) => "tabular"
      case Image(_, _) => "image"
    }
  }

  /** What `load_all` can observe of the models directory: the paths that
      exist, the `feature_names_in_` of each pipeline that has one (by the
      path it was loaded from) and the list a sidecar column file parses to. */
  datatype Disk = Disk(
    present: set<string>,
    featureNamesIn: map<string, seq<string>>,
    readColumns: string -> seq<string>)

  /** The tabular artifacts, in load order. */
  const TabularArtifacts: seq<(string, string)> := [("mimic_t2d", "t2d_lab_model.joblib"), ("nhanes", "nhanes.joblib")]

  /** The image artifacts, in load order. */
  const ImageArtifacts: seq<(string, string)> := [("dfu", "dfu-2.pt"), ("dr", "dr.pt")]

  const DfuLabels: seq<string> := ["Healthy skin", "Ulcer", "Wounds"]

  const DrLabels: seq<string> := ["Mild", "Moderate", "No_DR", "Proliferate_DR", "Severe"]

  /** `IMAGE_LABELS.get(mid, None)`: the class names of an image model, in
      the order of its outputs. */
  function ImageLabels(mid: string): (r: Option<seq<string>>)
    ensures mid == "dfu" ==> r == Some(DfuLabels) && |r.value| == 3
    ensures mid == "dr" ==> r == Some(DrLabels) && |r.value| == 5
    ensures mid != "dfu" && mid != "dr" ==> r == None
  {
    if mid == "dfu" then Some(DfuLabels)
    else if mid == "dr" then Some(DrLabels)
    else None
  }

  /** `os.path.join(base, name)` for a relative `name`, and `name` itself for
      an absolute one. */
  function JoinPath(base: string, name: string): (p: string)
    ensures |name| > 0 && name[0] == '/' ==> p == name
    ensures !(|name| > 0 && name[0] == '/') ==> |base| + |name| <= |p| <= |base| + |name| + 1
  {
    if |name| > 0 && name[0] == '/' then name
    else if base == [] || base[|base| - 1] == '/' then base + name
    else base + "/" + name
  }

  /** A relative name is appended to the base, with exactly one `/` between
      them when the base is not empty. */
  lemma JoinPathRelative(base: string, name: string)
    requires !(|name| > 0 && name[0] == '/')
    ensures var p := JoinPath(base, name);
      && p[..|base|] == base && p[|p| - |name|..] == name
      && (base != [] ==> p[|p| - |name| - 1] == '/')
  {
    var p := JoinPath(base, name);
    if base == [] || base[|base| - 1] == '/' {
      assert p == base + name;
    } else {
      assert p == base + "/" + name;
    }
  }

  const Joblib: string := ".joblib"

  const ColsJson: string := ".cols.json"

  /** `path.replace(".joblib", ".cols.json")`: the sidecar column file of a
      pipeline. */
  function SidecarPath(path: string): string {
    ReplaceAll(path, Joblib, ColsJson)
  }

  /** `".joblib"` cannot overlap a string that does not contain it: its only
      `'.'` is its first character. */
  lemma JoblibNotStraddling(a: string, b: string)
    requires !Contains(a, Joblib)
    ensures forall i :: 0 <= i < |a| ==> !OccursAt(a + Joblib + b, Joblib, i)
  {
    var s := a + Joblib + b;
    forall i | 0 <= i < |a| ensures !OccursAt(s, Joblib, i) {
      if i + |Joblib| <= |a| {
        assert s[i..i + |Joblib|] == a[i..i + |Joblib|];
        assert !OccursAt(a, Joblib, i);
      } else if i + |Joblib| <= |s| {
        var d := |a| - i;
        assert s[i..i + |Joblib|][d] == s[|a|] == '.';
        assert Joblib[d] != '.';
      }
    }
  }

  /** Every occurrence of `".joblib"` is rewritten, scanning from the left,
      wherever it appears, the directory part included. */
  lemma SidecarPathSplit(a: string, b: string)
    requires !Contains(a, Joblib)
    ensures SidecarPath(a + Joblib + b) == a + ColsJson + SidecarPath(b)
  {
    JoblibNotStraddling(a, b);
    ReplaceAllSplit(a, Joblib, b, ColsJson);
  }

  /** A path without `".joblib"` is its own sidecar path. */
  lemma SidecarPathAbsent(s: string)
    requires !Contains(s, Joblib)
    ensures SidecarPath(s) == s
  {
    ReplaceAllAbsent(s, Joblib, ColsJson);
  }

  /** A directory named like an artifact is renamed too: the sidecar of
      `<dir>.joblib/<name>.joblib` is `<dir>.cols.json/<name>.cols.json`. */
  lemma SidecarPathInDirectory(dir: string, name: string)
    requires !Contains(dir, Joblib) && !Contains("/" + name, Joblib)
    ensures SidecarPath(dir + Joblib + "/" + name + Joblib) == dir + ColsJson + "/" + name + ColsJson
  {
    var file := "/" + name;
    Regroup(dir, Joblib, "/", name);
    Regroup(dir, ColsJson, "/", name);
    SidecarPathSplit(dir, file + Joblib);
    SidecarPathSplit(file, "");
    SidecarPathAbsent("");
  }

  /** The two ways of grouping `dir + ext + sep + name + ext`. */
  lemma Regroup(dir: string, ext: string, sep: string, name: string)
    ensures dir + ext + sep + name + ext == dir + ext + (sep + name + ext + [])
    ensures sep + name + ext == sep + name + ext + []
  {
  }

  /** The feature columns of a pipeline loaded from `path`: its
      `feature_names_in_` when it has them, else the sidecar's list when the
      sidecar exists, else none. */
  function ColumnsFor(path: string, disk: Disk): seq<string> {
    if path in disk.featureNamesIn then disk.featureNamesIn[path]
    else if SidecarPath(path) in disk.present then disk.readColumns(SidecarPath(path))
    else []
  }

  /** Which of the two loops an artifact table belongs to. */
  datatype Kind = TabularKind | ImageKind(device: Device)

  /** The entry stored for model `mid` loaded from `path`. */
  function MakeBundle(kind: Kind, mid: string, path: string, disk: Disk): Bundle {
    match kind
    case TabularKind => Tabular(ColumnsFor(path, disk))
    case ImageKind(device) => Image(device, ImageLabels(mid))
  }

  /** The registry after one loop over `table`: each artifact whose file
      exists overwrites its id's entry; a missing file is skipped. */
  function LoadTable(reg: map<string, Bundle>, base: string, disk: Disk, kind: Kind,
                     table: seq<(string, string)>): (r: map<string, Bundle>)
    ensures reg.Keys <= r.Keys
    decreases |table|
  {
    if table == [] then reg
    else
      var prev := LoadTable(reg, base, disk, kind, table[..|table| - 1]);
      var (mid, name) := table[|table| - 1];
      var path := JoinPath(base, name);
      if path in disk.present then prev[mid := MakeBundle(kind, mid, path, disk)] else prev
  }

  /** The registry after `load_all`: both loops, the image loop with the one
      device chosen before it. */
  function Loaded(reg: map<string, Bundle>, base: string, disk: Disk, cudaAvailable: bool): (r: map<string, Bundle>)
    ensures reg.Keys <= r.Keys
  {
    var afterTabular := LoadTable(reg, base, disk, TabularKind, TabularArtifacts);
    LoadTable(afterTabular, base, disk, ImageKind(ChooseDevice(cudaAvailable)), ImageArtifacts)
  }

  /** The ids of a table whose files exist. */
  function PresentIds(base: string, disk: Disk, table: seq<(string, string)>): set<string> {
    set i | 0 <= i < |table| && JoinPath(base, table[i].1) in disk.present :: table[i].0
  }

  /** One loop adds exactly the ids whose files exist and removes nothing. */
  lemma {:induction false} LoadTableKeys(reg: map<string, Bundle>, base: string, disk: Disk, kind: Kind,
                                         table: seq<(string, string)>)
    ensures LoadTable(reg, base, disk, kind, table).Keys == reg.Keys + PresentIds(base, disk, table)
    decreases |table|
  {
    if table != [] {
      var p := table[..|table| - 1];
      LoadTableKeys(reg, base, disk, kind, p);
      var last := table[|table| - 1];
      var present := JoinPath(base, last.1) in disk.present;
      assert PresentIds(base, disk, table) == PresentIds(base, disk, p) + (if present then {last.0} else {}) by {
        forall x | x in PresentIds(base, disk, table)
          ensures x in PresentIds(base, disk, p) + (if present then {last.0} else {})
        {
          var i :| 0 <= i < |table| && JoinPath(base, table[i].1) in disk.present && table[i].0 == x;
          if i < |p| { assert p[i] == table[i]; }
        }
        forall x | x in PresentIds(base, disk, p) ensures x in PresentIds(base, disk, table) {
          var i :| 0 <= i < |p| && JoinPath(base, p[i].1) in disk.present && p[i].0 == x;
          assert table[i] == p[i];
        }
      }
    }
  }

  /** The ids of a table. */
  predicate ListsId(table: seq<(string, string)>, mid: string) {
    exists i :: 0 <= i < |table| && table[i].0 == mid
  }

  /** An id the table does not list keeps its entry, or its absence. */
  lemma {:induction false} LoadTableOther(reg: map<string, Bundle>, base: string, disk: Disk, kind: Kind,
                                          table: seq<(string, string)>, mid: string)
    requires !ListsId(table, mid)
    ensures var r := LoadTable(reg, base, disk, kind, table);
      (mid in r <==> mid in reg) && (mid in reg ==> r[mid] == reg[mid])
    decreases |table|
  {
    if table != [] {
      var p := table[..|table| - 1];
      assert !ListsId(p, mid) by {
        forall i | 0 <= i < |p| ensures p[i].0 != mid {
          assert p[i] == table[i];
        }
      }
      assert table[|table| - 1].0 != mid;
      LoadTableOther(reg, base, disk, kind, p, mid);
    }
  }

  /** In a table listing each id once, the entry of a listed id is the bundle
      of its artifact when the file exists; otherwise the id keeps its prior
      entry, or its absence. */
  lemma {:induction false} LoadTableEntry(reg: map<string, Bundle>, base: string, disk: Disk, kind: Kind,
                                          table: seq<(string, string)>, k: nat)
    requires k < |table|
    requires forall i, j :: 0 <= i < j < |table| ==> table[i].0 != table[j].0
    ensures var r := LoadTable(reg, base, disk, kind, table);
      var (mid, name) := table[k];
      var path := JoinPath(base, name);
      && (path in disk.present ==> mid in r && r[mid] == MakeBundle(kind, mid, path, disk))
      && (path !in disk.present ==> (mid in r <==> mid in reg) && (mid in reg ==> r[mid] == reg[mid]))
    decreases |table|
  {
    var p := table[..|table| - 1];
    if k < |p| {
      assert p[k] == table[k];
      assert forall i, j :: 0 <= i < j < |p| ==> p[i].0 != p[j].0 by {
        forall i, j | 0 <= i < j < |p| ensures p[i].0 != p[j].0 {
          assert p[i] == table[i] && p[j] == table[j];
        }
      }
      assert table[|table| - 1].0 != table[k].0;
      LoadTableEntry(reg, base, disk, kind, p, k);
    } else {
      assert !ListsId(p, table[k].0) by {
        forall i | 0 <= i < |p| ensures p[i].0 != table[k].0 {
          assert p[i] == table[i];
        }
      }
      LoadTableOther(reg, base, disk, kind, p, table[k].0);
    }
  }

  /** After `load_all` the ids are the prior ids plus every id of the two
      tables whose file exists: the registry is never cleared and a missing
      file is skipped. */
  lemma LoadedKeys(reg: map<string, Bundle>, base: string, disk: Disk, cudaAvailable: bool)
    ensures Loaded(reg, base, disk, cudaAvailable).Keys
      == reg.Keys + PresentIds(base, disk, TabularArtifacts) + PresentIds(base, disk, ImageArtifacts)
  {
    var afterTabular := LoadTable(reg, base, disk, TabularKind, TabularArtifacts);
    LoadTableKeys(reg, base, disk, TabularKind, TabularArtifacts);
    LoadTableKeys(afterTabular, base, disk, ImageKind(ChooseDevice(cudaAvailable)), ImageArtifacts);
  }

  lemma NotAnImageId(mid: string)
    requires mid == "mimic_t2d" || mid == "nhanes"
    ensures !ListsId(ImageArtifacts, mid)
  {
    assert ImageArtifacts[0].0 != mid && ImageArtifacts[1].0 != mid;
  }

  /** A tabular artifact that exists is registered as a tabular entry whose
      columns are the pipeline's `feature_names_in_` when present, else the
      sidecar's list when the sidecar exists, else empty. */
  lemma LoadedTabular(reg: map<string, Bundle>, base: string, disk: Disk, cudaAvailable: bool, k: nat)
    requires k < |TabularArtifacts|
    requires JoinPath(base, TabularArtifacts[k].1) in disk.present
    ensures var r := Loaded(reg, base, disk, cudaAvailable);
      var (mid, path) := (TabularArtifacts[k].0, JoinPath(base, TabularArtifacts[k].1));
      && mid in r && r[mid].Tabular? && r[mid].TypeName() == "tabular"
      && (path in disk.featureNamesIn ==> r[mid].cols == disk.featureNamesIn[path])
      && (path !in disk.featureNamesIn && SidecarPath(path) in disk.present ==>
            r[mid].cols == disk.readColumns(SidecarPath(path)))
      && (path !in disk.featureNamesIn && SidecarPath(path) !in disk.present ==> r[mid].cols == [])
  {
    var afterTabular := LoadTable(reg, base, disk, TabularKind, TabularArtifacts);
    LoadTableEntry(reg, base, disk, TabularKind, TabularArtifacts, k);
    NotAnImageId(TabularArtifacts[k].0);
    LoadTableOther(afterTabular, base, disk, ImageKind(ChooseDevice(cudaAvailable)), ImageArtifacts, TabularArtifacts[k].0);
  }

  /** An image artifact that exists is registered as an image entry on the
      device chosen once for the whole loop, with `IMAGE_LABELS[mid]`
      attached. */
  lemma LoadedImage(reg: map<string, Bundle>, base: string, disk: Disk, cudaAvailable: bool, k: nat)
    requires k < |ImageArtifacts|
    requires JoinPath(base, ImageArtifacts[k].1) in disk.present
    ensures var r := Loaded(reg, base, disk, cudaAvailable);
      var mid := ImageArtifacts[k].0;
      && mid in r && r[mid] == Image(ChooseDevice(cudaAvailable), ImageLabels(mid))
      && r[mid].TypeName() == "image"
  {
    var afterTabular := LoadTable(reg, base, disk, TabularKind, TabularArtifacts);
    LoadTableEntry(afterTabular, base, disk, ImageKind(ChooseDevice(cudaAvailable)), ImageArtifacts, k);
  }

  /** An artifact whose file is missing leaves its id's prior entry alone. */
  lemma LoadedMissing(reg: map<string, Bundle>, base: string, disk: Disk, cudaAvailable: bool, k: nat)
    requires k < |TabularArtifacts + ImageArtifacts|
    requires JoinPath(base, (TabularArtifacts + ImageArtifacts)[k].1) !in disk.present
    ensures var r := Loaded(reg, base, disk, cudaAvailable);
      var mid := (TabularArtifacts + ImageArtifacts)[k].0;
      (mid in r <==> mid in reg) && (mid in reg ==> r[mid] == reg[mid])
  {
    var afterTabular := LoadTable(reg, base, disk, TabularKind, TabularArtifacts);
    var device := ImageKind(ChooseDevice(cudaAvailable));
    if k < |TabularArtifacts| {
      LoadTableEntry(reg, base, disk, TabularKind, TabularArtifacts, k);
      NotAnImageId(TabularArtifacts[k].0);
      LoadTableOther(afterTabular, base, disk, device, ImageArtifacts, TabularArtifacts[k].0);
    } else {
      var j := k - |TabularArtifacts|;
      assert (TabularArtifacts + ImageArtifacts)[k] == ImageArtifacts[j];
      var mid := ImageArtifacts[j].0;
      assert !ListsId(TabularArtifacts, mid) by {
        assert |mid| <= 3;
        assert |TabularArtifacts[0].0| > 3 && |TabularArtifacts[1].0| > 3;
      }
      LoadTableOther(reg, base, disk, TabularKind, TabularArtifacts, mid);
      LoadTableEntry(afterTabular, base, disk, device, ImageArtifacts, j);
    }
  }

  /** Entries of ids outside the two tables are untouched. */
  lemma LoadedUntouched(reg: map<string, Bundle>, base: string, disk: Disk, cudaAvailable: bool, mid: string)
    requires !ListsId(TabularArtifacts, mid) && !ListsId(ImageArtifacts, mid)
    ensures var r := Loaded(reg, base, disk, cudaAvailable);
      (mid in r <==> mid in reg) && (mid in reg ==> r[mid] == reg[mid])
  {
    var afterTabular := LoadTable(reg, base, disk, TabularKind, TabularArtifacts);
    LoadTableOther(reg, base, disk, TabularKind, TabularArtifacts, mid);
    LoadTableOther(afterTabular, base, disk, ImageKind(ChooseDevice(cudaAvailable)), ImageArtifacts, mid);
  }

  /** Loading again from unchanged files changes nothing: `load_all` only
      overwrites the fixed ids, with bundles determined by the files. */
  lemma LoadedIdempotent(reg: map<string, Bundle>, base: string, disk: Disk, cudaAvailable: bool)
    ensures var once := Loaded(reg, base, disk, cudaAvailable);
      Loaded(once, base, disk, cudaAvailable) == once
  {
    var once := Loaded(reg, base, disk, cudaAvailable);
    var twice := Loaded(once, base, disk, cudaAvailable);
    LoadedKeys(reg, base, disk, cudaAvailable);
    LoadedKeys(once, base, disk, cudaAvailable);
    assert twice.Keys == once.Keys;
    forall mid | mid in once ensures twice[mid] == once[mid] {
      var all := TabularArtifacts + ImageArtifacts;
      if k :| 0 <= k < |all| && all[k].0 == mid {
        if JoinPath(base, all[k].1) in disk.present {
          if k < |TabularArtifacts| {
            LoadedTabular(reg, base, disk, cudaAvailable, k);
            LoadedTabular(once, base, disk, cudaAvailable, k);
          } else {
            LoadedImage(reg, base, disk, cudaAvailable, k - |TabularArtifacts|);
            LoadedImage(once, base, disk, cudaAvailable, k - |TabularArtifacts|);
          }
        } else {
          LoadedMissing(once, base, disk, cudaAvailable, k);
        }
      } else {
        assert !ListsId(TabularArtifacts, mid) by {
          forall i | 0 <= i < |TabularArtifacts| ensures TabularArtifacts[i].0 != mid {
            assert all[i] == TabularArtifacts[i];
          }
        }
        assert !ListsId(ImageArtifacts, mid) by {
          forall i | 0 <= i < |ImageArtifacts| ensures ImageArtifacts[i].0 != mid {
            assert all[|TabularArtifacts| + i] == ImageArtifacts[i];
          }
        }
        LoadedUntouched(once, base, disk, cudaAvailable, mid);
      }
    }
  }

  /** The module-level `REGISTRY`. */
  class ModelRegistry {
    var entries: map<string, Bundle>

    /** `REGISTRY = {}`. */
    constructor ()
      ensures entries == map[]
    {
      entries := map[];
    }

    /** `load_all()`: the tabular loop, then the device choice, then the
        image loop; returns the registry itself. */
    method LoadAll(base: string, disk: Disk, cudaAvailable: bool) returns (r: map<string, Bundle>)
      modifies this
      ensures entries == Loaded(old(entries), base, disk, cudaAvailable)
      ensures r == entries
    {
      for i := 0 to |TabularArtifacts|
        invariant entries == LoadTable(old(entries), base, disk, TabularKind, TabularArtifacts[..i])
      {
        assert TabularArtifacts[..i + 1][..i] == TabularArtifacts[..i];
        var (mid, name) := TabularArtifacts[i];
        var path := JoinPath(base, name);
        if path !in disk.present {
          continue;
        }
        var featureNames: seq<string>;
        if path in disk.featureNamesIn {
          featureNames := disk.featureNamesIn[path];
        } else {
          var colsPath := SidecarPath(path);
          featureNames := if colsPath in disk.present then disk.readColumns(colsPath) else [];
        }
        entries := entries[mid := Tabular(featureNames)];
      }
      assert TabularArtifacts[..|TabularArtifacts|] == TabularArtifacts;
      ghost var afterTabular := entries;

      var device := ChooseDevice(cudaAvailable);
      for i := 0 to |ImageArtifacts|
        invariant entries == LoadTable(afterTabular, base, disk, ImageKind(device), ImageArtifacts[..i])
      {
        assert ImageArtifacts[..i + 1][..i] == ImageArtifacts[..i];
        var (mid, name) := ImageArtifacts[i];
        var path := JoinPath(base, name);
        if path !in disk.present {
          continue;
        }
        entries := entries[mid := Image(device, ImageLabels(mid))];
      }
      assert ImageArtifacts[..|ImageArtifacts|] == ImageArtifacts;
      r := entries;
    }
  }
}
