/** Targets and recent pieces on disk: what is written, what a restart reads back, and what a crash leaves. */
module Store {
  import opened Wrappers
  import opened Folds
  import opened Targets
  import opened Metrics

  /** The JSON encodings, as arbitrary partial functions. */
  datatype Codec = Codec(
    encode: Record -> Option<string>,
    decode: string -> Option<Record>,
    encodePieces: map<string, string> -> string,
    decodePieces: string -> Option<map<string, string>>)

  /** How the calls of one store turn out: the file cannot be opened; it is truncated and only the
      first bytes are written; everything is written. */
  datatype Io = OpenFails | WriteFails(written: nat) | Completes

  const RECENT_PIECES: string := "recent.pieces"
  const SUFFIX: string := ".json"

  function FileName(id: string): string {
    id + SUFFIX
  }

  predicate HasSuffix(name: string) {
    |name| >= |SUFFIX| && name[|name| - |SUFFIX|..] == SUFFIX
  }

  /** What is left of a record that has been through its encoding: the error itself is not written. */
  function Persisted(t: Record): Record {
    t.(err := None)
  }

  /** The record survives its encoding, whole; and cut short it decodes to nothing or to the whole. */
  ghost predicate Durable(c: Codec, t: Record) {
    && c.encode(t).Some?
    && c.decode(c.encode(t).value) == Some(Persisted(t))
    && forall k :: 0 <= k <= |c.encode(t).value| ==>
         c.decode(c.encode(t).value[..k]) in {None, Some(Persisted(t))}
  }

  function Prefix(s: string, n: nat): string {
    if n < |s| then s[..n] else s
  }

  /** The directory after a store of t. */
  function Stored(files: map<string, string>, c: Codec, t: Record, io: Io): map<string, string> {
    if t.id == "" || io.OpenFails? then files
    else
      var text := c.encode(t).GetOr("");
      files[FileName(t.id) := if io.WriteFails? then Prefix(text, io.written) else text]
  }

  /* ----- Loading ----- */

  /** One step of the directory walk. */
  datatype Visit = Unreachable | Directory(name: string) | File(name: string, opens: bool, content: string)

  function Decoded(c: Codec, e: Visit): Option<Record> {
    if e.File? && HasSuffix(e.name) && e.opens then c.decode(e.content) else None
  }

  /** The targets that a walk finds; of two records with one identifier the later stays. */
  function Loaded(c: Codec, walk: seq<Visit>): map<string, Record> {
    if walk == [] then map[]
    else
      var before := Loaded(c, walk[..|walk| - 1]);
      match Decoded(c, walk[|walk| - 1])
      case None => before
      case Some(t) => before[t.id := t]
  }

  lemma {:induction false} LoadedKeyedById(c: Codec, walk: seq<Visit>)
    ensures KeyedById(Loaded(c, walk))
  {
    if walk != [] {
      LoadedKeyedById(c, walk[..|walk| - 1]);
    }
  }

  /** The walk over a directory whose files all open, in the given order of names. */
  function WalkOf(files: map<string, string>, names: seq<string>): seq<Visit>
    requires forall n :: n in names ==> n in files
  {
    seq(|names|, i requires 0 <= i < |names| => File(names[i], true, files[names[i]]))
  }

  ghost predicate Lists(names: seq<string>, files: map<string, string>) {
    NoDuplicates(names) && forall n :: n in names <==> n in files
  }

  class HeyFil {
    const storePath: string
    const codec: Codec
    var files: map<string, string>
    var targets: map<string, Record>
    var recentPieces: map<string, string>

    constructor (path: string, c: Codec, disk: map<string, string>)
      ensures storePath == path && codec == c && files == disk && targets == map[] && recentPieces == map[]
    {
      storePath, codec, files, targets, recentPieces := path, c, disk, map[], map[];
    }

    /** heyFil.store. */
    method StoreTarget(t: Record, io: Io) returns (ok: bool)
      modifies this`files
      ensures files == if storePath == "" then old(files) else Stored(old(files), codec, t, io)
      ensures ok <==> storePath == "" || t.id == "" || (io.Completes? && codec.encode(t).Some?)
      ensures storePath == "" || t.id == "" || io.OpenFails? ==> files == old(files)
      ensures storePath != "" && t.id != "" && io.Completes? ==>
                files == old(files)[t.id + ".json" := codec.encode(t).GetOr("")]
      ensures storePath != "" && t.id != "" && io.WriteFails? ==>
                exists text :: files == old(files)[t.id + ".json" := text] && text <= codec.encode(t).GetOr("") &&
                               (|text| == io.written || text == codec.encode(t).GetOr(""))
    {
      if storePath == "" || t.id == "" {
        return true;
      }
      if io.OpenFails? {
        return false;
      }
      var name := FileName(t.id);
      files := files[name := ""];
      var text := codec.encode(t);
      match text {
        case None => return false;
        case Some(s) =>
          if io.WriteFails? {
            files := files[name := Prefix(s, io.written)];
            return false;
          }
          files := files[name := s];
          return true;
      }
    }

    /** What the result handler does with one checked target. */
    method Commit(t: Record, io: Io)
      modifies this`files, this`targets
      ensures targets == old(targets)[t.id := t]
      ensures files == if storePath == "" then old(files) else Stored(old(files), codec, t, io)
    {
      targets := targets[t.id := t];
      var _ := StoreTarget(t, io);
    }

    /** heyFil.loadTargets, walking the directory in the given order. */
    method LoadTargets(walk: seq<Visit>)
      modifies this`targets
      ensures targets == if storePath == "" then old(targets) else old(targets) + Loaded(codec, walk)
    {
      if storePath == "" {
        return;
      }
      for i := 0 to |walk|
        invariant targets == old(targets) + Loaded(codec, walk[..i])
      {
        assert walk[..i + 1][..i] == walk[..i];
        match walk[i] {
          case File(name, opens, content) =>
            if HasSuffix(name) && opens {
              var target := codec.decode(content);
              if target.Some? {
                targets := targets[target.value.id := target.value];
              }
            }
          case _ =>
        }
      }
      assert walk[..|walk|] == walk;
    }

    /** heyFil.storeRecentPieces: memory follows only when everything is on disk. */
    method StoreRecentPieces(rp: map<string, string>, io: Io) returns (ok: bool)
      modifies this`files, this`recentPieces
      ensures ok <==> storePath == "" || io.Completes?
      ensures recentPieces == if ok && storePath != "" then rp else old(recentPieces)
      ensures files == if storePath == "" then old(files) else PiecesStored(old(files), codec, rp, io)
      ensures storePath == "" || io.OpenFails? ==> files == old(files)
      ensures storePath != "" && io.Completes? ==> files == old(files)["recent.pieces" := codec.encodePieces(rp)]
      ensures storePath != "" && io.WriteFails? ==>
                exists text :: files == old(files)["recent.pieces" := text] && text <= codec.encodePieces(rp) &&
                               (|text| == io.written || text == codec.encodePieces(rp))
    {
      if storePath == "" {
        return true;
      }
      if io.OpenFails? {
        return false;
      }
      files := files[RECENT_PIECES := ""];
      if io.WriteFails? {
        files := files[RECENT_PIECES := Prefix(codec.encodePieces(rp), io.written)];
        return false;
      }
      files := files[RECENT_PIECES := codec.encodePieces(rp)];
      recentPieces := rp;
      return true;
    }

    /** heyFil.loadRecentPieces; opens says whether the file, if it is there, can be opened. */
    method LoadRecentPieces(opens: bool)
      modifies this`recentPieces
      ensures recentPieces ==
              if storePath != "" && RECENT_PIECES in files && opens then
                codec.decodePieces(files[RECENT_PIECES]).GetOr(old(recentPieces))
              else old(recentPieces)
    {
      if storePath == "" {
        return;
      }
      if RECENT_PIECES !in files || !opens {
        return;
      }
      var target := codec.decodePieces(files[RECENT_PIECES]);
      if target.Some? {
        recentPieces := target.value;
      }
    }
  }

  /** The next process: a new state over the same directory, with the pieces loaded. */
  method Restart(hf: HeyFil) returns (next: HeyFil)
    ensures fresh(next) && next.storePath == hf.storePath && next.codec == hf.codec && next.files == hf.files
    ensures hf.storePath == "" || "recent.pieces" !in hf.files ==> next.recentPieces == map[]
    ensures hf.storePath != "" && "recent.pieces" in hf.files ==>
              next.recentPieces == hf.codec.decodePieces(hf.files["recent.pieces"]).GetOr(map[])
  {
    next := new HeyFil(hf.storePath, hf.codec, hf.files);
    next.LoadRecentPieces(true);
  }

  /** Recent pieces that survive their encoding survive a restart, whatever targets are committed in between. */
  method PiecesSurvive(hf: HeyFil, rp: map<string, string>, commits: seq<(Record, Io)>) returns (next: HeyFil)
    requires hf.storePath != "" && hf.codec.decodePieces(hf.codec.encodePieces(rp)) == Some(rp)
    modifies hf
    ensures fresh(next) && next.recentPieces == rp
  {
    var _ := hf.StoreRecentPieces(rp, Completes);
    for i := 0 to |commits|
      invariant "recent.pieces" in hf.files && hf.files["recent.pieces"] == hf.codec.encodePieces(rp)
    {
      FileNames(commits[i].0.id, "");
      hf.Commit(commits[i].0, commits[i].1);
    }
    next := Restart(hf);
  }

  function PiecesStored(files: map<string, string>, c: Codec, rp: map<string, string>, io: Io): map<string, string> {
    match io
    case OpenFails => files
    case WriteFails(n) => files[RECENT_PIECES := Prefix(c.encodePieces(rp), n)]
    case Completes => files[RECENT_PIECES := c.encodePieces(rp)]
  }

  /* ----- Disk and memory ----- */

  /** Not empty and without a slash, so that the identifier names a file of the directory itself. */
  predicate Plain(id: string) {
    id != "" && '/' !in id
  }

  /** Every target has its file, every file of targets is some target's, and it says the same. */
  ghost predicate Agrees(c: Codec, files: map<string, string>, targets: map<string, Record>) {
    && KeyedById(targets)
    && (forall id :: id in targets ==>
          FileName(id) in files && c.decode(files[FileName(id)]) == Some(Persisted(targets[id])))
    && (forall name :: name in files && HasSuffix(name) ==> exists id :: id in targets && name == FileName(id))
  }

  lemma FileNames(x: string, y: string)
    ensures HasSuffix(FileName(x)) && FileName(x) != RECENT_PIECES && !HasSuffix(RECENT_PIECES)
    ensures FileName(x) == FileName(y) <==> x == y
  {
    assert FileName(x)[..|x|] == x && FileName(y)[..|y|] == y;
    assert FileName(x)[|x|..] == SUFFIX;
    assert RECENT_PIECES[|RECENT_PIECES| - 5..][0] == 'i';
    assert !HasSuffix(RECENT_PIECES);
  }

  /** A commit whose store succeeds keeps disk and memory in agreement. */
  lemma CommitAgrees(c: Codec, files: map<string, string>, targets: map<string, Record>, t: Record)
    requires Agrees(c, files, targets) && Plain(t.id) && Durable(c, t)
    ensures Agrees(c, Stored(files, c, t, Completes), targets[t.id := t])
  {
    var files', targets' := Stored(files, c, t, Completes), targets[t.id := t];
    forall id | id in targets'
      ensures FileName(id) in files' && c.decode(files'[FileName(id)]) == Some(Persisted(targets'[id]))
    {
      FileNames(id, t.id);
    }
    forall name | name in files' && HasSuffix(name)
      ensures exists id :: id in targets' && name == FileName(id)
    {
      if name != FileName(t.id) {
        var id :| id in targets && name == FileName(id);
        assert id in targets';
      } else {
        assert t.id in targets';
      }
    }
  }

  /** The recent pieces, whatever becomes of their own store, disturb nothing. */
  lemma PiecesAgree(c: Codec, files: map<string, string>, targets: map<string, Record>, rp: map<string, string>, io: Io)
    requires Agrees(c, files, targets)
    ensures Agrees(c, PiecesStored(files, c, rp, io), targets)
  {
    forall id | id in targets
      ensures FileName(id) != RECENT_PIECES
    {
      FileNames(id, "");
    }
    FileNames("", "");
  }

  /** The events of a process that touch disk and targets, all stores succeeding. */
  datatype Event = Committed(target: Record) | PiecesPut(pieces: map<string, string>, io: Io)

  function After(c: Codec, files: map<string, string>, targets: map<string, Record>, events: seq<Event>)
    : (map<string, string>, map<string, Record>)
  {
    if events == [] then (files, targets)
    else
      var (f, m) := After(c, files, targets, events[..|events| - 1]);
      match events[|events| - 1]
      case Committed(t) => (Stored(f, c, t, Completes), m[t.id := t])
      case PiecesPut(rp, io) => (PiecesStored(f, c, rp, io), m)
  }

  lemma {:induction false} RunAgrees(c: Codec, files: map<string, string>, targets: map<string, Record>, events: seq<Event>)
    requires Agrees(c, files, targets)
    requires forall e :: e in events && e.Committed? ==> Plain(e.target.id) && Durable(c, e.target)
    ensures Agrees(c, After(c, files, targets, events).0, After(c, files, targets, events).1)
  {
    if events != [] {
      var n := |events| - 1;
      RunAgrees(c, files, targets, events[..n]);
      var (f, m) := After(c, files, targets, events[..n]);
      match events[n] {
        case Committed(t) => CommitAgrees(c, f, m, t);
        case PiecesPut(rp, io) => PiecesAgree(c, f, m, rp, io);
      }
    }
  }

  /** What a record's file loads as. */
  function ReadBack(c: Codec, files: map<string, string>, id: string): Option<Record> {
    if FileName(id) in files then c.decode(files[FileName(id)]) else None
  }

  /** Each file of targets decodes, if it does, to a record of the identifier in its name. */
  ghost predicate OwnNames(c: Codec, files: map<string, string>) {
    forall name :: name in files && HasSuffix(name) && c.decode(files[name]).Some? ==>
      name == FileName(c.decode(files[name]).value.id)
  }

  lemma NamesItsTarget(c: Codec, files: map<string, string>, targets: map<string, Record>, id: string)
    requires Agrees(c, files, targets)
    ensures FileName(id) in files <==> id in targets
  {
    FileNames(id, "");
    if FileName(id) in files {
      var owner :| owner in targets && FileName(id) == FileName(owner);
      FileNames(id, owner);
    }
  }

  /** Loading a directory of properly named files finds each record under its identifier, in
      whatever order the walk comes by. */
  lemma {:induction false} LoadReads(c: Codec, files: map<string, string>, names: seq<string>, id: string)
    requires OwnNames(c, files) && forall n :: n in names ==> n in files
    ensures
      var m := Loaded(c, WalkOf(files, names));
      if FileName(id) in names && ReadBack(c, files, id).Some? && ReadBack(c, files, id).value.id == id then
        id in m && Some(m[id]) == ReadBack(c, files, id)
      else id !in m
  {
    if names != [] {
      var n := |names| - 1;
      LoadReads(c, files, names[..n], id);
      var walk := WalkOf(files, names);
      assert walk[..n] == WalkOf(files, names[..n]) && walk[n] == File(names[n], true, files[names[n]]);
      assert walk == walk[..n] + [walk[n]];
      LoadedStep(c, walk[..n], walk[n]);
      OneFile(c, files, names[n], id);
      assert FileName(id) in names <==> FileName(id) in names[..n] || FileName(id) == names[n];
      hide *;
    }
  }

  lemma LoadedStep(c: Codec, walk: seq<Visit>, v: Visit)
    ensures
      var t := Decoded(c, v);
      Loaded(c, walk + [v]) == if t.Some? then Loaded(c, walk)[t.value.id := t.value] else Loaded(c, walk)
  {
    assert (walk + [v])[..|walk|] == walk;
  }

  /** A walk loads one record for each file, but not directory, of the right name that opens and decodes,
      under the record's own identifier and over what it loaded before; nothing else loads anything. */
  lemma VisitLoads(c: Codec, walk: seq<Visit>, v: Visit)
    ensures
      if v.File? && v.opens && |v.name| >= 5 && v.name[|v.name| - 5..] == ".json" && c.decode(v.content).Some? then
        var t := c.decode(v.content).value;
        Loaded(c, walk + [v]) == Loaded(c, walk)[t.id := t]
      else
        Loaded(c, walk + [v]) == Loaded(c, walk)
    ensures Loaded(c, []) == map[]
  {
    LoadedStep(c, walk, v);
    assert v.File? ==> (HasSuffix(v.name) <==> |v.name| >= 5 && v.name[|v.name| - 5..] == ".json");
    hide Loaded, HasSuffix;
  }

  /** What one file adds to what is known of an identifier. */
  lemma OneFile(c: Codec, files: map<string, string>, name: string, id: string)
    requires OwnNames(c, files) && name in files
    ensures
      var t := Decoded(c, File(name, true, files[name]));
      && (name == FileName(id) ==> t == ReadBack(c, files, id))
      && (name != FileName(id) && t.Some? ==> t.value.id != id)
  {
    FileNames(id, "");
  }

  /** A restart after any run finds exactly the targets that were in memory, as persisted. */
  lemma ReloadAgrees(c: Codec, files: map<string, string>, targets: map<string, Record>, names: seq<string>)
    requires Agrees(c, files, targets) && Lists(names, files)
    ensures Loaded(c, WalkOf(files, names)) == map id | id in targets :: Persisted(targets[id])
    ensures Agrees(c, files, Loaded(c, WalkOf(files, names)))
  {
    forall name | name in files && HasSuffix(name) && c.decode(files[name]).Some?
      ensures name == FileName(c.decode(files[name]).value.id)
    {
      var id :| id in targets && name == FileName(id);
      FileNames(id, "");
    }
    var m := Loaded(c, WalkOf(files, names));
    forall id
      ensures id in m <==> id in targets
      ensures id in m ==> m[id] == Persisted(targets[id])
    {
      LoadReads(c, files, names, id);
      FileNames(id, "");
      NamesItsTarget(c, files, targets, id);
    }
    forall name | name in files && HasSuffix(name)
      ensures exists id :: id in m && name == FileName(id)
    {
      var id :| id in targets && name == FileName(id);
      assert id in m;
    }
  }

  /** A crash inside a store, after the file was truncated and some of it written, is confined to
      that target: a restart finds it as the new record or not at all, and the others as ever. */
  lemma CrashConfined(c: Codec, files: map<string, string>, targets: map<string, Record>, t: Record, written: nat, names: seq<string>)
    requires Agrees(c, files, targets) && Plain(t.id) && Durable(c, t)
    requires Lists(names, Stored(files, c, t, WriteFails(written)))
    ensures
      var m := Loaded(c, WalkOf(Stored(files, c, t, WriteFails(written)), names));
      && (forall id :: id != t.id ==> (id in m <==> id in targets) && (id in m ==> m[id] == Persisted(targets[id])))
      && (t.id in m ==> m[t.id] == Persisted(t))
  {
    var files' := Stored(files, c, t, WriteFails(written));
    var text := c.encode(t).value;
    assert text[..|text|] == text;
    assert c.decode(files'[FileName(t.id)]) in {None, Some(Persisted(t))};
    forall name | name in files' && HasSuffix(name) && c.decode(files'[name]).Some?
      ensures name == FileName(c.decode(files'[name]).value.id)
    {
      if name != FileName(t.id) {
        var id :| id in targets && name == FileName(id);
        FileNames(id, t.id);
      }
    }
    forall id
      ensures
        var m := Loaded(c, WalkOf(files', names));
        if id == t.id then t.id in m ==> m[t.id] == Persisted(t)
        else (id in m <==> id in targets) && (id in m ==> m[id] == Persisted(targets[id]))
    {
      LoadReads(c, files', names, id);
      FileNames(id, t.id);
      NamesItsTarget(c, files, targets, id);
    }
  }
}
