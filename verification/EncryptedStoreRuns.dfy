/**
 Safety over whole runs of store creation: any number of `prepare_encrypted_ingest`
 calls, each of which may stop before any file effect, interleaved with opens of
 the store by the engine, from an empty directory.
 */
module EncryptedStoreRuns {
  import opened Wrappers
  import opened EncryptedStore

  // ---------------------------------------------------------------- torn authority files

  lemma NewlineAt(s: string, k: nat)
    requires k < |s| && s[k] == '\n' && '\n' !in s[..k]
    ensures FirstNewline(s) == k
  {
    if k > 0 {
      assert s[..k][0] == s[0];
      assert s[1..][..k - 1] == s[..k][1..];
      NewlineAt(s[1..], k - 1);
    }
  }

  lemma LinesSplit(line: string, rest: string)
    requires '\n' !in line && (line == [] || line[|line| - 1] != '\r')
    ensures Lines(line + "\n" + rest) == [line] + Lines(rest)
  {
    var s := line + "\n" + rest;
    assert s[..|line|] == line && s[|line| + 1..] == rest;
    NewlineAt(s, |line|);
  }

  lemma LinesOfPiece(line: string)
    requires '\n' !in line
    ensures Lines(line) == if line == [] then [] else [line]
  {
    assert FirstNewline(line) == |line|;
  }

  // Every prefix of the authority file that `fs::write` can leave claims
  // "enabled" or is refused; the claim appears with the last letter of `true`.
  lemma TornAuthority(json: Serializer, key: KeySource, n: nat)
    requires n <= |AuthorityText(json, key)|
    ensures var found := EnabledValue(Lines(AuthorityText(json, key)[..n]));
            if n >= 22 then found == Some("true")
            else found.None? || (found.value != "true" && found.value != "false")
  {
    TornHead(json(key), n);
  }

  lemma TornHead(rest: string, n: nat)
    requires n <= |AUTHORITY_HEAD| + |rest|
    ensures var found := EnabledValue(Lines((AUTHORITY_HEAD + rest)[..n]));
            if n >= 22 then found == Some("true")
            else found.None? || (found.value != "true" && found.value != "false")
  {
    var v := "version=3";
    var below := "enabled=true" + "\n" + rest;
    assert AUTHORITY_HEAD + rest == v + "\n" + below;
    var s := (AUTHORITY_HEAD + rest)[..n];
    if n <= 9 {
      assert s == v[..n];
      LinesOfPiece(s);
      assert s != [] ==> s[0] == 'v';
    } else {
      assert s == v + "\n" + below[..n - 10];
      LinesSplit(v, below[..n - 10]);
      TornEnabled(rest, n - 10);
      assert Lines(s)[0] == v && Lines(s)[1..] == Lines(below[..n - 10]);
    }
  }

  lemma TornEnabled(rest: string, n: nat)
    requires n <= 13 + |rest|
    ensures var found := EnabledValue(Lines(("enabled=true" + "\n" + rest)[..n]));
            if n >= 12 then found == Some("true")
            else found.None? || (found.value != "true" && found.value != "false")
  {
    var e := "enabled=true";
    var s := (e + "\n" + rest)[..n];
    if n <= 12 {
      assert s == e[..n];
      LinesOfPiece(s);
      if n >= 8 { assert |s[8..]| == n - 8 && (n == 12 ==> s[8..] == "true"); }
    } else {
      assert s == e + "\n" + rest[..n - 13];
      LinesSplit(e, rest[..n - 13]);
      assert e[8..] == "true";
    }
  }

  // ---------------------------------------------------------------- the invariant

  ghost predicate AuthorityUpTo(json: Serializer, c: Content, key: KeySource, n: nat) {
    n <= |AuthorityText(json, key)| && c == Text(AuthorityText(json, key)[..n])
  }

  ghost predicate PinnedBy(json: Serializer, f: map<FileName, Content>, key: KeySource) {
    && Authority in f && AuthorityUpTo(json, f[Authority], key, |AuthorityText(json, key)|)
    && Marker in f && f[Marker] == Json(NewMarker(key))
  }

  // What every reachable directory satisfies.
  ghost predicate Inv(json: Serializer, d: Directory) {
    var f := Files(d);
    && (Marker in f ==> MarkerTemp !in f && exists key :: PinnedBy(json, f, key))
    && (Authority in f && Marker !in f ==>
          && f.Keys <= {Authority, MarkerTemp}
          && exists key, n :: AuthorityUpTo(json, f[Authority], key, n))
  }

  datatype Event =
    | PrepareCall(host: Host, keyFile: Option<string>, passphraseEnv: Option<string>,
                  listing: seq<FileName>, budget: nat)
    | EngineOpen(host: Host, written: map<FileName, Content>)

  const MODE_FILES := {Authority, Marker, MarkerTemp}

  // An open that the resolver admits lets the engine rewrite every other file.
  ghost predicate Next(json: Serializer, d: Directory, ev: Event, d': Directory) {
    match ev
    case PrepareCall(host, keyFile, passphraseEnv, listing, budget) =>
      && IsListing(listing, d)
      && d' == AfterPrepare(json, d, KeySourceFromFlags(host, keyFile, passphraseEnv), listing, budget)
    case EngineOpen(host, written) =>
      && ResolveEncryptionConfig(host, d).Ok?
      && d' == Present(written)
      && (forall n :: n in MODE_FILES ==> (n in written <==> n in Files(d)))
      && (forall n :: n in MODE_FILES && n in written ==> written[n] == Files(d)[n])
  }

  ghost predicate IsRun(json: Serializer, states: seq<Directory>, events: seq<Event>) {
    && |states| == |events| + 1
    && Files(states[0]) == map[]
    && forall i :: 0 <= i < |events| ==> Next(json, states[i], events[i], states[i + 1])
  }

  // ---------------------------------------------------------------- closed forms

  // The directory after the first `k` effects of a fresh initialisation.
  function FreshStage(d: Directory, text: string, marker: StoreMarker, k: nat): Directory {
    if k == 0 then d
    else if k == 1 then Present(map[])
    else if k <= |text| + 2 then Present(map[Authority := Text(text[..k - 2])])
    else if k == |text| + 3 then Present(map[Authority := Text(text), MarkerTemp := TornJson])
    else if k == |text| + 4 then Present(map[Authority := Text(text), MarkerTemp := Json(marker)])
    else Present(map[Authority := Text(text), Marker := Json(marker)])
  }

  lemma {:induction false} FreshStages(d: Directory, text: string, marker: StoreMarker, k: nat)
    requires Files(d) == map[] && k <= |text| + 5
    ensures ApplyAll(d, (FreshStateEffects(d, text) + MarkerEffects(marker))[..k]) == FreshStage(d, text, marker, k)
  {
    var es := FreshStateEffects(d, text) + MarkerEffects(marker);
    if k > 0 {
      FreshStages(d, text, marker, k - 1);
      ApplyNext(d, es, k - 1);
      assert text[..|text|] == text;
      FreshStep(d, text, marker, k - 1);
    }
  }

  lemma FreshStep(d: Directory, text: string, marker: StoreMarker, k: nat)
    requires Files(d) == map[] && k < |text| + 5
    ensures Apply(FreshStage(d, text, marker, k), (FreshStateEffects(d, text) + MarkerEffects(marker))[k]) ==
            FreshStage(d, text, marker, k + 1)
  {
    var e := (FreshStateEffects(d, text) + MarkerEffects(marker))[k];
    assert text[..|text|] == text;
    if k == 0 {
      assert e == CreateDir;
    } else if k < |text| + 2 {
      assert e == Put(Authority, Text(text[..k - 1]));
    } else {
      assert e == MarkerEffects(marker)[k - |text| - 2];
    }
  }

  function Least(a: nat, b: nat): nat {
    if a < b then a else b
  }

  // A call changes nothing, or stops somewhere in the discard, or somewhere in a
  // fresh initialisation.
  lemma PrepareStages(json: Serializer, d: Directory, key: KeySource, listing: seq<FileName>, budget: nat)
    requires IsListing(listing, d)
    ensures var d' := AfterPrepare(json, d, Ok(key), listing, budget);
            var last := |AuthorityText(json, key)| + 5;
            if OnlyPartialInit(listing) then
              if budget < |listing| then d' == Present(Files(d) - (set n | n in listing[..budget]))
              else d' == FreshStage(Present(map[]), AuthorityText(json, key), NewMarker(key), Least(budget - |listing|, last))
            else if Files(d) == map[] then
              d' == FreshStage(d, AuthorityText(json, key), NewMarker(key), Least(budget, last))
            else d' == d
  {
    var discard := DiscardEffects(listing);
    AfterDiscard(json, d, key, listing, budget);
    NotFreshKeepsMarker(d, listing);
    if OnlyPartialInit(listing) {
      DiscardEach(listing);
      if budget < |listing| {
        CutDiscard(d, listing, budget);
      } else {
        CreateStages(json, Present(map[]), key, budget - |discard|);
      }
    } else {
      CreateStages(json, d, key, budget);
    }
  }

  lemma {:induction false} AfterDiscard(json: Serializer, d: Directory, key: KeySource, listing: seq<FileName>, budget: nat)
    ensures var discard, d' := DiscardEffects(listing), AfterPrepare(json, d, Ok(key), listing, budget);
      if budget < |discard| then d' == ApplyAll(d, discard[..budget])
      else d' == ApplyAll(ApplyAll(d, discard), Upto(CreateEffects(ApplyAll(d, discard), json, key), budget - |discard|))
  {
    var discard := DiscardEffects(listing);
    UptoConcat(d, discard, CreateEffects(ApplyAll(d, discard), json, key), budget);
  }

  lemma DiscardEach(listing: seq<FileName>)
    requires OnlyPartialInit(listing)
    ensures |DiscardEffects(listing)| == |listing|
  {
  }

  lemma CutDiscard(d: Directory, listing: seq<FileName>, n: nat)
    requires IsListing(listing, d) && OnlyPartialInit(listing) && n < |listing|
    ensures ApplyAll(d, DiscardEffects(listing)[..n]) == Present(Files(d) - (set name | name in listing[..n]))
  {
    assert DiscardEffects(listing)[..n] == RemoveAll(listing[..n]);
    RemoveAllKeys(d, listing[..n]);
  }

  lemma CreateStages(json: Serializer, d: Directory, key: KeySource, budget: nat)
    ensures ApplyAll(d, Upto(CreateEffects(d, json, key), budget)) ==
            if Files(d) == map[]
            then FreshStage(d, AuthorityText(json, key), NewMarker(key), Least(budget, |AuthorityText(json, key)| + 5))
            else d
  {
    var text, marker := AuthorityText(json, key), NewMarker(key);
    assert Files(d).Keys == {} <==> Files(d) == map[];
    if Files(d) == map[] {
      var es := FreshStateEffects(d, text) + MarkerEffects(marker);
      FreshStages(d, text, marker, Least(budget, |text| + 5));
      assert Upto(es, budget) == es[..Least(budget, |text| + 5)];
    }
  }

  lemma StageKeepsInv(json: Serializer, d: Directory, key: KeySource, k: nat)
    requires Files(d) == map[]
    ensures Inv(json, FreshStage(d, AuthorityText(json, key), NewMarker(key), k))
  {
    var text := AuthorityText(json, key);
    var s := FreshStage(d, text, NewMarker(key), k);
    assert text[..|text|] == text;
    if 2 <= k <= |text| + 2 {
      assert AuthorityUpTo(json, Files(s)[Authority], key, k - 2);
    } else if k > |text| + 2 {
      assert AuthorityUpTo(json, Files(s)[Authority], key, |text|);
      if k > |text| + 4 { assert PinnedBy(json, Files(s), key); }
    }
  }

  lemma StepKeepsInv(json: Serializer, d: Directory, ev: Event, d': Directory)
    requires Inv(json, d) && Next(json, d, ev, d')
    ensures Inv(json, d')
  {
    match ev
    case PrepareCall(host, keyFile, passphraseEnv, listing, budget) =>
      var flags := KeySourceFromFlags(host, keyFile, passphraseEnv);
      if flags.Ok? { PrepareKeepsInv(json, d, flags.value, listing, budget); }
    case EngineOpen(host, written) =>
      assert Authority in MODE_FILES && Marker in MODE_FILES && MarkerTemp in MODE_FILES;
      AuthorityMeaning(json, d);
      if Marker in Files(d) {
        var key :| PinnedBy(json, Files(d), key);
        assert PinnedBy(json, written, key);
      }
  }

  lemma PrepareKeepsInv(json: Serializer, d: Directory, key: KeySource, listing: seq<FileName>, budget: nat)
    requires Inv(json, d) && IsListing(listing, d)
    ensures Inv(json, AfterPrepare(json, d, Ok(key), listing, budget))
  {
    PrepareStages(json, d, key, listing, budget);
    var last := |AuthorityText(json, key)| + 5;
    if OnlyPartialInit(listing) {
      if budget < |listing| {
        PartialListings(listing);
      } else {
        StageKeepsInv(json, Present(map[]), key, Least(budget - |listing|, last));
      }
    } else if Files(d) == map[] {
      StageKeepsInv(json, d, key, Least(budget, last));
    }
  }

  // In a reachable directory a standing authority file claims the store or is refused.
  lemma AuthorityMeaning(json: Serializer, d: Directory)
    requires Inv(json, d)
    ensures Authority in Files(d) ==> ReadAuthority(d) == Ok(Some(true)) || ReadAuthority(d).Err?
    ensures Marker in Files(d) ==> ReadAuthority(d) == Ok(Some(true)) && ReadMarker(d).Ok?
  {
    if Marker in Files(d) {
      var key :| PinnedBy(json, Files(d), key);
      TornAuthority(json, key, |AuthorityText(json, key)|);
    } else if Authority in Files(d) {
      var key, n :| AuthorityUpTo(json, Files(d)[Authority], key, n);
      TornAuthority(json, key, n);
    }
  }

  lemma {:induction false} RunInvariant(json: Serializer, states: seq<Directory>, events: seq<Event>, i: nat)
    requires IsRun(json, states, events) && i < |states|
    ensures Inv(json, states[i])
  {
    if i > 0 {
      RunInvariant(json, states, events, i - 1);
      StepKeepsInv(json, states[i - 1], events[i - 1], states[i]);
    }
  }

  // ---------------------------------------------------------------- safety

  // The marker never leads the authority: where it exists it is readable, and
  // the authority file is complete, enabled, and written for the same key source.
  lemma MarkerNeverLeadsAuthority(json: Serializer, states: seq<Directory>, events: seq<Event>, i: nat)
    requires IsRun(json, states, events) && i < |states|
    requires Marker in Files(states[i])
    ensures ReadMarker(states[i]).Ok? && ReadMarker(states[i]).value.Some?
    ensures var key := ReadMarker(states[i]).value.value.keySource;
            && Authority in Files(states[i])
            && Files(states[i])[Authority] == Text(AuthorityText(json, key))
            && ReadAuthority(states[i]) == Ok(Some(true))
  {
    RunInvariant(json, states, events, i);
    AuthorityMeaning(json, states[i]);
    var key :| PinnedBy(json, Files(states[i]), key);
    assert AuthorityText(json, key)[..|AuthorityText(json, key)|] == AuthorityText(json, key);
  }

  // Once a marker exists, no later call and no open changes the pinned key source.
  lemma {:induction false} PinnedKeyNeverChanges(json: Serializer, states: seq<Directory>, events: seq<Event>, i: nat, j: nat)
    requires IsRun(json, states, events) && i <= j < |states|
    requires Marker in Files(states[i])
    ensures Marker in Files(states[j])
    ensures Files(states[j])[Marker] == Files(states[i])[Marker]
  {
    if i < j {
      PinnedKeyNeverChanges(json, states, events, i, j - 1);
      assert Next(json, states[j - 1], events[j - 1], states[j]);
      var d := states[j - 1];
      match events[j - 1]
      case PrepareCall(host, keyFile, passphraseEnv, listing, budget) =>
        var flags := KeySourceFromFlags(host, keyFile, passphraseEnv);
        ForeignFileKeepsDirectory(json, d, flags, listing, budget, Marker);
      case EngineOpen(host, written) =>
        assert Marker in MODE_FILES;
    }
  }

  // While an authority file stands, torn or whole, no open is answered plaintext.
  lemma NeverPlaintextUnderAuthority(json: Serializer, states: seq<Directory>, events: seq<Event>, i: nat, host: Host)
    requires IsRun(json, states, events) && i < |states|
    requires Authority in Files(states[i])
    ensures var answer := ResolveEncryptionConfig(host, states[i]);
            answer.Ok? ==> answer.value.mode == Encrypted
  {
    RunInvariant(json, states, events, i);
    AuthorityMeaning(json, states[i]);
  }

  // Of any directory, reachable or not: one file besides the authority and the
  // marker's temporary file, and a call changes nothing wherever it stops.
  lemma ForeignFileKeepsDirectory(json: Serializer, d: Directory, flags: Result<KeySource, StoreError>, listing: seq<FileName>,
                                  budget: nat, name: FileName)
    requires IsListing(listing, d)
    requires name in Files(d) && name != Authority && name != MarkerTemp
    ensures AfterPrepare(json, d, flags, listing, budget) == d
  {
    assert name in listing;
    assert Files(d) != map[];
    if flags.Ok? { PrepareStages(json, d, flags.value, listing, budget); }
  }

  // ---------------------------------------------------------------- recovery

  // An uninterrupted call on a reachable directory succeeds exactly when the
  // directory is empty or holds the authority file.
  lemma RetryAccepted(json: Serializer, d: Directory, key: KeySource, listing: seq<FileName>)
    requires Inv(json, d) && IsListing(listing, d)
    ensures PrepareAnswer(d, key, listing).Ok? <==> Files(d) == map[] || Authority in Files(d)
    ensures PrepareAnswer(d, key, listing) == Ok(None) <==> Marker in Files(d)
  {
    NotFreshKeepsMarker(d, listing);
    AuthorityMeaning(json, d);
    assert Files(d).Keys == {} <==> Files(d) == map[];
    if Marker in Files(d) {
      var k :| PinnedBy(json, Files(d), k);
    } else if Authority in Files(d) {
      forall i | 0 <= i < |listing| ensures listing[i] == Authority || listing[i] == MarkerTemp {
        assert listing[i] in listing;
      }
    }
  }

  // ... and it leaves a directory that opens as encrypted under every host that
  // has the pinned key, which is the caller's unless a marker was there before.
  lemma RetryRecovers(json: Serializer, d: Directory, later: Host, key: KeySource, listing: seq<FileName>, budget: nat)
    requires Inv(json, d) && IsListing(listing, d)
    requires |PrepareEffects(d, json, key, listing)| <= budget
    requires PrepareAnswer(d, key, listing).Ok?
    ensures var d' := AfterPrepare(json, d, Ok(key), listing, budget);
            && ReadMarker(d').Ok? && ReadMarker(d').value.Some?
            && var pinned := ReadMarker(d').value.value.keySource;
            && (if Marker in Files(d) then d' == d else pinned == key)
            && ResolveEncryptionConfig(later, d') ==
               if KeyMaterialAvailable(later, pinned) then Ok(Resolved(Encrypted, Some(pinned))) else Err(KeyUnavailable)
  {
    RetryAccepted(json, d, key, listing);
    if Marker in Files(d) {
      ForeignFileKeepsDirectory(json, d, Ok(key), listing, budget, Marker);
      var k :| PinnedBy(json, Files(d), k);
      PinnedOpens(json, d, k, later);
    } else {
      NotFreshKeepsMarker(d, listing);
      assert Files(d).Keys == {} <==> Files(d) == map[];
      FinishedPrepare(json, d, key, listing, budget);
      var text := AuthorityText(json, key);
      assert text[..|text|] == text;
      PinnedOpens(json, Present(map[Authority := Text(text), Marker := Json(NewMarker(key))]), key, later);
    }
  }

  lemma PinnedOpens(json: Serializer, d: Directory, key: KeySource, host: Host)
    requires PinnedBy(json, Files(d), key)
    ensures ReadMarker(d) == Ok(Some(NewMarker(key)))
    ensures ResolveEncryptionConfig(host, d) ==
            if KeyMaterialAvailable(host, key) then Ok(Resolved(Encrypted, Some(key))) else Err(KeyUnavailable)
  {
    TornAuthority(json, key, |AuthorityText(json, key)|);
  }

  lemma FinishedPrepare(json: Serializer, d: Directory, key: KeySource, listing: seq<FileName>, budget: nat)
    requires IsListing(listing, d)
    requires Files(ApplyAll(d, DiscardEffects(listing))) == map[]
    requires |PrepareEffects(d, json, key, listing)| <= budget
    ensures AfterPrepare(json, d, Ok(key), listing, budget) ==
            Present(map[Authority := Text(AuthorityText(json, key)), Marker := Json(NewMarker(key))])
  {
    NotFreshKeepsMarker(d, listing);
    PrepareStages(json, d, key, listing, budget);
    var cleared := ApplyAll(d, DiscardEffects(listing));
    assert |CreateEffects(cleared, json, key)| == |AuthorityText(json, key)| + 5;
  }

  // The discard has been cut between its two removals.
  ghost predicate Stranded(d: Directory) {
    MarkerTemp in Files(d) && Authority !in Files(d)
  }

  // What a retry accepts, by `RetryAccepted`.
  predicate Recoverable(d: Directory) {
    Files(d) == map[] || Authority in Files(d)
  }

  lemma StageIsNotStranded(d: Directory, text: string, marker: StoreMarker, k: nat)
    requires Files(d) == map[]
    ensures Recoverable(FreshStage(d, text, marker, k)) && !Stranded(FreshStage(d, text, marker, k))
  {
  }

  // Cut in the discard, a call leaves the authority unless that was listed first.
  lemma CutDiscardStrands(d: Directory, listing: seq<FileName>, n: nat)
    requires IsListing(listing, d) && OnlyPartialInit(listing) && n < |listing|
    ensures var left := Present(Files(d) - (set name | name in listing[..n]));
      if listing == [Authority, MarkerTemp] && n == 1 then Stranded(left) && !Recoverable(left)
      else Recoverable(left) && !Stranded(left)
  {
    PartialListings(listing);
    PrefixesOfTwo(listing, n);
    var left := Files(d) - (set name | name in listing[..n]);
    assert forall name :: name in left <==> name in Files(d) && name !in listing[..n];
  }

  // A call strands the directory there, and anywhere else leaves it alone or recoverable.
  lemma CallLeaves(json: Serializer, d: Directory, key: KeySource, listing: seq<FileName>, budget: nat)
    requires IsListing(listing, d)
    ensures var left := AfterPrepare(json, d, Ok(key), listing, budget);
      if listing == [Authority, MarkerTemp] && budget == 1 then Stranded(left) && !Recoverable(left)
      else left == d || (Recoverable(left) && !Stranded(left))
  {
    var text, marker := AuthorityText(json, key), NewMarker(key);
    PrepareStages(json, d, key, listing, budget);
    assert OnlyPartialInit([Authority, MarkerTemp]);
    if OnlyPartialInit(listing) {
      if budget < |listing| {
        CutDiscardStrands(d, listing, budget);
      } else {
        StageIsNotStranded(Present(map[]), text, marker, Least(budget - |listing|, |text| + 5));
      }
    } else if Files(d) == map[] {
      StageIsNotStranded(d, text, marker, Least(budget, |text| + 5));
    }
  }

  // A call strands a directory exactly when it stops inside the discard, after
  // removing the authority file and before removing the temporary file.
  lemma StrandedExactly(json: Serializer, d: Directory, flags: Result<KeySource, StoreError>, listing: seq<FileName>, budget: nat)
    requires Inv(json, d) && IsListing(listing, d) && !Stranded(d)
    ensures Stranded(AfterPrepare(json, d, flags, listing, budget)) <==>
            flags.Ok? && listing == [Authority, MarkerTemp] && budget == 1
  {
    if flags.Ok? { CallLeaves(json, d, flags.value, listing, budget); }
  }

  // From a directory a retry accepts, a call leaves one a retry accepts, wherever it
  // stops but in that one place.
  lemma CallKeepsRecoverable(json: Serializer, d: Directory, flags: Result<KeySource, StoreError>, listing: seq<FileName>,
                             budget: nat)
    requires Inv(json, d) && IsListing(listing, d) && Recoverable(d)
    ensures Recoverable(AfterPrepare(json, d, flags, listing, budget)) <==>
            !(flags.Ok? && listing == [Authority, MarkerTemp] && budget == 1)
  {
    if flags.Ok? { CallLeaves(json, d, flags.value, listing, budget); }
  }

  lemma PrefixesOfTwo(listing: seq<FileName>, n: nat)
    requires n < |listing| <= 2
    ensures listing[..n] == [] || listing[..n] == [listing[0]]
  {
  }

  lemma TwoNames(a: FileName, b: FileName, c: FileName)
    requires {a, b, c} <= {Authority, MarkerTemp}
    ensures a == b || b == c || a == c
  {
  }

  lemma PartialListings(listing: seq<FileName>)
    requires OnlyPartialInit(listing)
    requires forall i, j :: 0 <= i < j < |listing| ==> listing[i] != listing[j]
    ensures listing == [Authority] || listing == [Authority, MarkerTemp] || listing == [MarkerTemp, Authority]
  {
    if |listing| >= 3 {
      TwoNames(listing[0], listing[1], listing[2]);
      assert false;
    } else if |listing| == 2 {
      assert listing[0] in listing && listing[1] in listing;
    }
  }

  // A stranded directory never recovers: it opens as plaintext, and every call
  // refuses it as an existing plaintext store.
  lemma {:induction false} StrandedForever(json: Serializer, states: seq<Directory>, events: seq<Event>, i: nat, j: nat,
                                           host: Host, key: KeySource, listing: seq<FileName>)
    requires IsRun(json, states, events) && i <= j < |states|
    requires Stranded(states[i]) && IsListing(listing, states[j])
    ensures Stranded(states[j])
    ensures ResolveEncryptionConfig(host, states[j]) == Ok(Resolved(Plaintext, None))
    ensures PrepareAnswer(states[j], key, listing) == Err(StorageModeMismatch)
  {
    StrandedStays(json, states, events, i, j);
    RunInvariant(json, states, events, j);
    assert !OnlyPartialInit(listing);
  }

  lemma {:induction false} StrandedStays(json: Serializer, states: seq<Directory>, events: seq<Event>, i: nat, j: nat)
    requires IsRun(json, states, events) && i <= j < |states|
    requires Stranded(states[i])
    ensures Stranded(states[j])
  {
    if i < j {
      StrandedStays(json, states, events, i, j - 1);
      assert Next(json, states[j - 1], events[j - 1], states[j]);
      match events[j - 1]
      case PrepareCall(host, keyFile, passphraseEnv, listing, budget) =>
        var flags := KeySourceFromFlags(host, keyFile, passphraseEnv);
        assert Files(states[j - 1]) != map[];
        assert !OnlyPartialInit(listing);
        if flags.Ok? { PrepareStages(json, states[j - 1], flags.value, listing, budget); }
      case EngineOpen(host, written) =>
        assert Authority in MODE_FILES && MarkerTemp in MODE_FILES;
    }
  }

  // Such a run exists: a first call stops while the marker's temporary file is
  // being written, and the retry stops after its first removal.
  lemma StrandingRun(json: Serializer) returns (states: seq<Directory>, events: seq<Event>)
    ensures IsRun(json, states, events) && |states| == 3
    ensures forall i :: 0 <= i < |events| ==> events[i].PrepareCall?
    ensures Stranded(states[2])
  {
    var host := Host(p => RegularFile, p => Some(p), p => true, v => true);
    var key := File("/k");
    var text := AuthorityText(json, key);
    var listing := [Authority, MarkerTemp];
    var half := Present(map[Authority := Text(text), MarkerTemp := TornJson]);
    var stranded := Present(map[MarkerTemp := TornJson]);
    var first := PrepareCall(host, Some("/k"), None, [], |text| + 3);
    var retry := PrepareCall(host, Some("/k"), None, listing, 1);
    assert KeySourceFromFlags(host, Some("/k"), None) == Ok(key);
    assert Next(json, Missing, first, half) by {
      PrepareStages(json, Missing, key, [], |text| + 3);
    }
    assert Next(json, half, retry, stranded) by {
      RetryCut(json, half, key);
    }
    states, events := [Missing, half, stranded], [first, retry];
  }

  lemma RetryCut(json: Serializer, d: Directory, key: KeySource)
    requires Files(d).Keys == {Authority, MarkerTemp}
    ensures IsListing([Authority, MarkerTemp], d)
    ensures AfterPrepare(json, d, Ok(key), [Authority, MarkerTemp], 1) == Present(map[MarkerTemp := Files(d)[MarkerTemp]])
  {
    var listing := [Authority, MarkerTemp];
    PrepareStages(json, d, key, listing, 1);
    assert listing[..1] == [Authority];
    assert Files(d) - (set n | n in listing[..1]) == map[MarkerTemp := Files(d)[MarkerTemp]];
  }
}
