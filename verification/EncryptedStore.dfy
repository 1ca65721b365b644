/**
 Creation of an encrypted store (src/encrypted_store.rs): the engine's authority
 file is written first, then the marker's temporary file, then the marker by
 rename; a retry first discards what an interrupted attempt left behind. Every
 file effect is a step of its own, and a call may stop (crash, or return an I/O
 error, which rolls nothing back) before any of them.
 */
module EncryptedStore {
  import opened Wrappers

  const STORE_MARKER_SCHEMA_VERSION := 1

  // Entries of the data directory: `encryption.state`, `egregore-store.json`,
  // `egregore-store.json.tmp`, and everything else.
  datatype FileName = Authority | Marker | MarkerTemp | Other(name: string)

  datatype StorageMode = Plaintext | Encrypted

  // The non-secret key-source descriptor pinned at creation.
  datatype KeySource =
    | File(path: string)
    | PassphraseFile(path: string, passphraseEnv: string)

  datatype StoreMarker = StoreMarker(schemaVersion: int, storageMode: StorageMode, keySource: KeySource)

  datatype StoreError = StorageModeMismatch | KeyUnavailable | MarkerUnreadable | InvalidOptions

  // What a file holds: text, a complete marker document, or a strict prefix of one.
  datatype Content = Text(body: string) | Json(marker: StoreMarker) | TornJson

  datatype Directory = Missing | Present(files: map<FileName, Content>)

  // What the host answers about paths and environment variables.
  datatype PathKind = Absent | RegularFile | OtherEntry
  datatype Host = Host(
    kind: string -> PathKind,
    absolute: string -> Option<string>,
    validRawKey: string -> bool,
    envNonEmpty: string -> bool)

  function Files(d: Directory): map<FileName, Content> {
    if d.Present? then d.files else map[]
  }

  // ---------------------------------------------------------------- readers

  // Position of the first newline, or the length when there is none.
  function FirstNewline(s: string): (i: nat)
    ensures i <= |s| && '\n' !in s[..i]
    ensures i < |s| ==> s[i] == '\n'
  {
    if s == [] || s[0] == '\n' then 0 else 1 + FirstNewline(s[1..])
  }

  function StripCarriageReturn(line: string): string {
    if |line| > 0 && line[|line| - 1] == '\r' then line[..|line| - 1] else line
  }

  // `str::lines`: the last piece is dropped when empty, and a carriage return is
  // stripped only in front of a newline.
  function Lines(s: string): seq<string> {
    if s == [] then []
    else
      var i := FirstNewline(s);
      if i == |s| then [s]
      else [StripCarriageReturn(s[..i])] + Lines(s[i + 1..])
  }

  function EnabledValue(lines: seq<string>): Option<string> {
    if lines == [] then None
    else if "enabled=" <= lines[0] then Some(lines[0][8..])
    else EnabledValue(lines[1..])
  }

  // `read_engine_authority_enabled`: absent is no claim, anything unparseable an error.
  function ReadAuthority(d: Directory): Result<Option<bool>, StoreError> {
    if Authority !in Files(d) then Ok(None)
    else
      match Files(d)[Authority]
      case Text(body) =>
        (match EnabledValue(Lines(body))
         case Some(value) =>
           if value == "true" then Ok(Some(true))
           else if value == "false" then Ok(Some(false))
           else Err(StorageModeMismatch)
         case None => Err(StorageModeMismatch))
      case _ => Err(StorageModeMismatch)
  }

  function ReadMarker(d: Directory): Result<Option<StoreMarker>, StoreError> {
    if Marker !in Files(d) then Ok(None)
    else
      match Files(d)[Marker]
      case Json(marker) =>
        if marker.schemaVersion != STORE_MARKER_SCHEMA_VERSION then Err(MarkerUnreadable)
        else if marker.storageMode != Encrypted then Err(MarkerUnreadable)
        else Ok(Some(marker))
      case _ => Err(MarkerUnreadable)
  }

  predicate KeyMaterialAvailable(host: Host, key: KeySource) {
    match key
    case File(path) => host.kind(path) == RegularFile
    case PassphraseFile(path, variable) => host.kind(path) != Absent && host.envNonEmpty(variable)
  }

  datatype Resolved = Resolved(mode: StorageMode, keySource: Option<KeySource>)

  // The single hook every open of a store goes through.
  function ResolveEncryptionConfig(host: Host, d: Directory): Result<Resolved, StoreError> {
    match ReadMarker(d)
    case Err(e) => Err(e)
    case Ok(marker) =>
      match ReadAuthority(d)
      case Err(e) => Err(e)
      case Ok(authority) =>
        match (marker, authority)
        case (Some(m), Some(true)) =>
          if KeyMaterialAvailable(host, m.keySource)
          then Ok(Resolved(Encrypted, Some(m.keySource)))
          else Err(KeyUnavailable)
        case (Some(_), _) => Err(StorageModeMismatch)
        case (None, Some(true)) => Err(StorageModeMismatch)
        case (None, _) => Ok(Resolved(Plaintext, None))
  }

  predicate IsFreshStore(d: Directory) {
    Files(d).Keys == {}
  }

  // `key_source_from_flags`: refuses a source whose material cannot be loaded now.
  function KeySourceFromFlags(host: Host, keyFile: Option<string>, passphraseEnv: Option<string>)
    : Result<KeySource, StoreError>
  {
    match keyFile
    case None => Err(InvalidOptions)
    case Some(path) =>
      if host.kind(path) != RegularFile then Err(InvalidOptions)
      else
        match host.absolute(path)
        case None => Err(InvalidOptions)
        case Some(full) =>
          match passphraseEnv
          case Some(variable) =>
            if host.envNonEmpty(variable) then Ok(PassphraseFile(full, variable)) else Err(InvalidOptions)
          case None =>
            if host.validRawKey(path) then Ok(File(full)) else Err(InvalidOptions)
  }

  // ---------------------------------------------------------------- file effects

  datatype Effect =
    | CreateDir
    | Put(name: FileName, content: Content)
    | Remove(name: FileName)
    | Rename(from: FileName, to: FileName)

  function Apply(d: Directory, e: Effect): Directory {
    match e
    case CreateDir => Present(Files(d))
    case Put(name, content) => if d.Present? then Present(d.files[name := content]) else d
    case Remove(name) => if d.Present? then Present(d.files - {name}) else d
    case Rename(from, to) =>
      if d.Present? && from in d.files then Present((d.files - {from})[to := d.files[from]]) else d
  }

  function ApplyAll(d: Directory, es: seq<Effect>): Directory
    decreases |es|
  {
    if es == [] then d else Apply(ApplyAll(d, es[..|es| - 1]), es[|es| - 1])
  }

  lemma ApplyNext(d: Directory, es: seq<Effect>, k: nat)
    requires k < |es|
    ensures ApplyAll(d, es[..k + 1]) == Apply(ApplyAll(d, es[..k]), es[k])
  {
    assert es[..k + 1][..k] == es[..k];
  }

  lemma ApplyAllConcat(d: Directory, a: seq<Effect>, b: seq<Effect>)
    ensures ApplyAll(d, a + b) == ApplyAll(ApplyAll(d, a), b)
    decreases |b|
  {
    if b == [] {
      assert a + b == a;
    } else {
      assert (a + b)[..|a + b| - 1] == a + b[..|b| - 1];
      ApplyAllConcat(d, a, b[..|b| - 1]);
    }
  }

  // The lines that follow the head, `key_source_json=` with the serialised key
  // source and `algorithm=`, as some total function of the key source.
  type Serializer = KeySource -> string

  const AUTHORITY_HEAD: string := "version=3" + "\n" + "enabled=true" + "\n"

  function AuthorityText(json: Serializer, key: KeySource): string {
    AUTHORITY_HEAD + json(key)
  }

  function NewMarker(key: KeySource): StoreMarker {
    StoreMarker(STORE_MARKER_SCHEMA_VERSION, Encrypted, key)
  }

  // `fs::write` creates an empty file and then appends; every prefix is a state.
  function AuthorityWrites(text: string): (es: seq<Effect>)
    ensures |es| == |text| + 1
  {
    seq(|text| + 1, i requires 0 <= i <= |text| => Put(Authority, Text(text[..i])))
  }

  function FreshStateEffects(d: Directory, text: string): seq<Effect> {
    if Authority in Files(d) then [] else [CreateDir] + AuthorityWrites(text)
  }

  function MarkerEffects(marker: StoreMarker): seq<Effect> {
    [Put(MarkerTemp, TornJson),
     Put(MarkerTemp, Json(marker)),
     Rename(MarkerTemp, Marker)]
  }

  // An order in which `fs::read_dir` may list the directory.
  ghost predicate IsListing(listing: seq<FileName>, d: Directory) {
    && (forall n :: n in listing <==> n in Files(d))
    && (forall i, j :: 0 <= i < j < |listing| ==> listing[i] != listing[j])
  }

  predicate OnlyPartialInit(listing: seq<FileName>) {
    && Authority in listing
    && forall i :: 0 <= i < |listing| ==> listing[i] == Authority || listing[i] == MarkerTemp
  }

  function RemoveAll(names: seq<FileName>): (es: seq<Effect>)
    ensures |es| == |names|
  {
    seq(|names|, i requires 0 <= i < |names| => Remove(names[i]))
  }

  function DiscardEffects(listing: seq<FileName>): seq<Effect> {
    if OnlyPartialInit(listing) then RemoveAll(listing) else []
  }

  function Upto(es: seq<Effect>, budget: nat): seq<Effect> {
    if budget < |es| then es[..budget] else es
  }

  // What remains to be done once leftovers are gone: nothing in a used directory.
  function CreateEffects(d: Directory, json: Serializer, key: KeySource): seq<Effect> {
    if IsFreshStore(d) then FreshStateEffects(d, AuthorityText(json, key)) + MarkerEffects(NewMarker(key)) else []
  }

  function PrepareEffects(d: Directory, json: Serializer, key: KeySource, listing: seq<FileName>): seq<Effect> {
    DiscardEffects(listing) + CreateEffects(ApplyAll(d, DiscardEffects(listing)), json, key)
  }

  // The directory a call leaves when it can perform `budget` effects.
  function AfterPrepare(json: Serializer, d: Directory, flags: Result<KeySource, StoreError>, listing: seq<FileName>, budget: nat): Directory {
    match flags
    case Err(_) => d
    case Ok(key) => ApplyAll(d, Upto(PrepareEffects(d, json, key, listing), budget))
  }

  // What a call that is not interrupted returns.
  function PrepareAnswer(d: Directory, key: KeySource, listing: seq<FileName>): Result<Option<KeySource>, StoreError> {
    if IsFreshStore(ApplyAll(d, DiscardEffects(listing))) then Ok(Some(key))
    else
      match ReadMarker(d)
      case Err(e) => Err(e)
      case Ok(Some(_)) => Ok(None)
      case Ok(None) => Err(StorageModeMismatch)
  }

  lemma UptoConcat(d: Directory, a: seq<Effect>, b: seq<Effect>, budget: nat)
    ensures ApplyAll(d, Upto(a + b, budget)) ==
            if budget < |a| then ApplyAll(d, a[..budget]) else ApplyAll(ApplyAll(d, a), Upto(b, budget - |a|))
  {
    if budget < |a| {
      assert Upto(a + b, budget) == a[..budget];
    } else {
      assert Upto(a + b, budget) == a + Upto(b, budget - |a|);
      ApplyAllConcat(d, a, Upto(b, budget - |a|));
    }
  }

  // The effects `es`, begun on `d0` by a caller that can perform `b0` more,
  // left `d1` and `b1`; `alive` when all of them were performed.
  ghost predicate Performed(d0: Directory, b0: nat, es: seq<Effect>, d1: Directory, b1: nat, alive: bool) {
    && (alive <==> |es| <= b0)
    && d1 == ApplyAll(d0, Upto(es, b0))
    && b1 == b0 - |Upto(es, b0)|
  }

  lemma PerformedThen(d0: Directory, b0: nat, es1: seq<Effect>, d1: Directory, b1: nat,
                      es2: seq<Effect>, d2: Directory, b2: nat, alive: bool)
    requires Performed(d0, b0, es1, d1, b1, true)
    requires Performed(d1, b1, es2, d2, b2, alive)
    ensures Performed(d0, b0, es1 + es2, d2, b2, alive)
  {
    assert Upto(es1 + es2, b0) == es1 + Upto(es2, b1);
    ApplyAllConcat(d0, es1, Upto(es2, b1));
  }

  lemma PerformedCut(d0: Directory, b0: nat, es1: seq<Effect>, d1: Directory, b1: nat, es2: seq<Effect>)
    requires Performed(d0, b0, es1, d1, b1, false)
    ensures Performed(d0, b0, es1 + es2, d1, b1, false)
  {
    assert Upto(es1 + es2, b0) == Upto(es1, b0);
  }

  // A data directory, and the number of file effects that still succeed.
  class DataDir {
    const json: Serializer
    var dir: Directory
    var budget: nat

    constructor (json: Serializer, dir: Directory, budget: nat)
      ensures this.json == json && this.dir == dir && this.budget == budget
    {
      this.json, this.dir, this.budget := json, dir, budget;
    }

    method Perform(e: Effect) returns (alive: bool)
      modifies this
      ensures alive <==> old(budget) > 0
      ensures dir == if alive then Apply(old(dir), e) else old(dir)
      ensures budget == if alive then old(budget) - 1 else 0
    {
      alive := budget > 0;
      if alive {
        dir, budget := Apply(dir, e), budget - 1;
      }
    }

    // `fs::write` of the authority file.
    method WriteAuthority(text: string) returns (alive: bool)
      modifies this
      ensures Performed(old(dir), old(budget), AuthorityWrites(text), dir, budget, alive)
    {
      ghost var d0, b0 := dir, budget;
      ghost var es := AuthorityWrites(text);
      alive := true;
      for i := 0 to |text| + 1
        invariant alive
        invariant dir == ApplyAll(d0, es[..i]) && budget == b0 - i
      {
        ApplyNext(d0, es, i);
        alive := Perform(Put(Authority, Text(text[..i])));
        if !alive { return; }
      }
      assert es[..|text| + 1] == es;
    }

    method WriteFreshEncryptionState(key: KeySource) returns (alive: bool)
      modifies this
      ensures Performed(old(dir), old(budget), FreshStateEffects(old(dir), AuthorityText(json, key)), dir, budget, alive)
    {
      if Authority in Files(dir) {
        return true;
      }
      ghost var d0, b0 := dir, budget;
      var text := AuthorityText(json, key);
      ghost var writes := AuthorityWrites(text);
      alive := Perform(CreateDir);
      assert [CreateDir][..1] == [CreateDir] && [CreateDir][..0] == [];
      assert Performed(d0, b0, [CreateDir], dir, budget, alive);
      if !alive {
        PerformedCut(d0, b0, [CreateDir], dir, budget, writes);
        return;
      }
      ghost var d1, b1 := dir, budget;
      alive := WriteAuthority(text);
      PerformedThen(d0, b0, [CreateDir], d1, b1, writes, dir, budget, alive);
    }

    method WriteMarker(marker: StoreMarker) returns (alive: bool)
      modifies this
      ensures Performed(old(dir), old(budget), MarkerEffects(marker), dir, budget, alive)
    {
      ghost var es := MarkerEffects(marker);
      ghost var d0 := dir;
      ApplyNext(d0, es, 0);
      ApplyNext(d0, es, 1);
      ApplyNext(d0, es, 2);
      alive := Perform(Put(MarkerTemp, TornJson));
      if !alive { return; }
      alive := Perform(Put(MarkerTemp, Json(marker)));
      if !alive { return; }
      alive := Perform(Rename(MarkerTemp, Marker));
    }

    method DiscardPartialInit(listing: seq<FileName>) returns (alive: bool)
      requires IsListing(listing, dir)
      modifies this
      ensures Performed(old(dir), old(budget), DiscardEffects(listing), dir, budget, alive)
    {
      if !OnlyPartialInit(listing) {
        return true;
      }
      ghost var d0, b0 := dir, budget;
      ghost var es := RemoveAll(listing);
      alive := true;
      for i := 0 to |listing|
        invariant alive
        invariant dir == ApplyAll(d0, es[..i]) && budget == b0 - i
      {
        ApplyNext(d0, es, i);
        alive := Perform(Remove(listing[i]));
        if !alive { return; }
      }
      assert es[..|listing|] == es;
    }

    // The authority file leads, the marker follows.
    method CreateStore(key: KeySource) returns (alive: bool)
      modifies this
      ensures Performed(old(dir), old(budget),
                        FreshStateEffects(old(dir), AuthorityText(json, key)) + MarkerEffects(NewMarker(key)),
                        dir, budget, alive)
    {
      ghost var d0, b0 := dir, budget;
      ghost var state := FreshStateEffects(d0, AuthorityText(json, key));
      var marker := NewMarker(key);
      alive := WriteFreshEncryptionState(key);
      if !alive {
        PerformedCut(d0, b0, state, dir, budget, MarkerEffects(marker));
        return;
      }
      ghost var d1, b1 := dir, budget;
      alive := WriteMarker(marker);
      PerformedThen(d0, b0, state, d1, b1, MarkerEffects(marker), dir, budget, alive);
    }

    // `None` when the call was interrupted.
    method PrepareEncryptedIngest(host: Host, keyFile: Option<string>, passphraseEnv: Option<string>, listing: seq<FileName>)
      returns (answer: Option<Result<Option<KeySource>, StoreError>>)
      requires IsListing(listing, dir)
      modifies this
      ensures dir == AfterPrepare(json, old(dir), KeySourceFromFlags(host, keyFile, passphraseEnv), listing, old(budget))
      ensures match KeySourceFromFlags(host, keyFile, passphraseEnv)
              case Err(e) => answer == Some(Err(e)) && dir == old(dir)
              case Ok(key) =>
                && Performed(old(dir), old(budget), PrepareEffects(old(dir), json, key, listing), dir, budget, answer.Some?)
                && (answer.Some? ==> answer.value == PrepareAnswer(old(dir), key, listing))
    {
      ghost var d0, b0 := dir, budget;
      var flags := KeySourceFromFlags(host, keyFile, passphraseEnv);
      if flags.Err? {
        return Some(Err(flags.error));
      }
      var key := flags.value;
      ghost var discard := DiscardEffects(listing);
      ghost var create := CreateEffects(ApplyAll(d0, discard), json, key);
      assert PrepareEffects(d0, json, key, listing) == discard + create;
      var alive := DiscardPartialInit(listing);
      if !alive {
        PerformedCut(d0, b0, discard, dir, budget, create);
        return None;
      }
      ghost var d1, b1 := dir, budget;
      if IsFreshStore(dir) {
        alive := CreateStore(key);
        PerformedThen(d0, b0, discard, d1, b1, create, dir, budget, alive);
        return if alive then Some(Ok(Some(key))) else None;
      }
      assert discard + create == discard;
      NotFreshKeepsMarker(d0, listing);
      match ReadMarker(dir)
      case Err(e) => return Some(Err(e));
      case Ok(Some(_)) => return Some(Ok(None));
      case Ok(None) => return Some(Err(StorageModeMismatch));
    }
  }

  // ---------------------------------------------------------------- discard

  lemma RemoveAllKeys(d: Directory, names: seq<FileName>)
    requires d.Present?
    ensures var r := ApplyAll(d, RemoveAll(names));
            r.Present? && r.files == d.files - (set n | n in names)
    decreases |names|
  {
    if names == [] {
      assert d.files == d.files - (set n | n in names);
    } else {
      var front := names[..|names| - 1];
      assert RemoveAll(names)[..|names| - 1] == RemoveAll(front);
      RemoveAllKeys(d, front);
      assert (set n | n in names) == (set n | n in front) + {names[|names| - 1]};
    }
  }

  // The discard either does nothing or empties the directory.
  lemma NotFreshKeepsMarker(d: Directory, listing: seq<FileName>)
    requires IsListing(listing, d)
    ensures ApplyAll(d, DiscardEffects(listing)) ==
            if OnlyPartialInit(listing) then Present(map[]) else d
  {
    if OnlyPartialInit(listing) {
      assert d.Present?;
      RemoveAllKeys(d, listing);
      assert d.files - (set n | n in listing) == map[];
    }
  }
}
