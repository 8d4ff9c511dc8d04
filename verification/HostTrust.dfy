/** Trust on first use over whole runs: checks and restarts in any order. */
module HostTrust {
  import opened Common
  import Yaml
  import opened Text
  import opened ManifestBodies
  import opened Base64
  import opened HostLines
  import opened HostAppend
  import opened KnownHosts

  datatype Step = Check(query: Query) | Restart

  /** One step of an `accept-new` verifier whose disk works; a restart reloads the file. */
  ghost function Next(mac: Mac, s: Store, step: Step): Store
  {
    match step
    case Check(q) => CheckedStore(mac, AcceptNew, s, q)
    case Restart => Store(s.disk, Entries(s.disk))
  }

  ghost function Run(mac: Mac, s: Store, steps: seq<Step>): Store
  {
    if steps == [] then s else Next(mac, Run(mac, s, steps[..|steps| - 1]), steps[|steps| - 1])
  }

  /** A clean host form and a key type without white space: every query the client makes of
      a proper host name. */
  predicate PlainQuery(q: Query)
  {
    CleanForm(CanonicalForm(q.host, q.port)) && IsToken(q.keyType)
  }

  ghost predicate PlainSteps(steps: seq<Step>)
  {
    forall q :: Check(q) in steps ==> PlainQuery(q)
  }

  /** The entries a restart keeps. */
  ghost function LastingOf(entries: seq<HostEntry>): seq<HostEntry>
  {
    Filter(entries, (e: HostEntry) => Lasting(e))
  }

  /** The disk holds the lasting entries of memory, and the next line will be read on its own. */
  ghost predicate Synced(s: Store)
  {
    Fit(s.disk) && Entries(s.disk) == LastingOf(s.entries)
  }

  /** A file fit to be appended to is in step with what was loaded from it. */
  lemma LoadedIsSynced(text: string)
    requires Fit(text)
    ensures Synced(Store(text, Entries(text)))
  {
    LoadedAreLasting(Lines(text));
    FilterAll(Entries(text), (e: HostEntry) => Lasting(e));
  }

  lemma RestartKeepsSynced(mac: Mac, s: Store)
    requires Synced(s)
    ensures Next(mac, s, Restart).entries == LastingOf(s.entries) && Synced(Next(mac, s, Restart))
    ensures LastingOf(LastingOf(s.entries)) == LastingOf(s.entries)
  {
    LoadedIsSynced(s.disk);
  }

  lemma LastingSnoc(entries: seq<HostEntry>, e: HostEntry)
    ensures LastingOf(entries + [e]) == LastingOf(entries) + (if Lasting(e) then [e] else [])
  {
    assert (entries + [e])[..|entries|] == entries;
  }

  lemma RecordKeepsSynced(s: Store, q: Query)
    requires Synced(s) && PlainQuery(q)
    ensures Synced(Record(s, q)) && LastingOf(s.entries) <= LastingOf(Record(s, q).entries)
  {
    var form := CanonicalForm(q.host, q.port);
    AppendedIsFit(s.disk, form, q.keyType, q.key);
    LastingSnoc(s.entries, EntryOf(form, q.keyType, q.key));
    RecordedLasts(form, q.keyType, q.key);
    if Lasts(q.keyType, q.key) {
      FitSurvives(s.disk, form, q.keyType, q.key);
    } else {
      LostAppend(s.disk, form, q.keyType, q.key);
    }
  }

  lemma StepKeepsSynced(mac: Mac, s: Store, step: Step)
    requires Synced(s) && (step.Check? ==> PlainQuery(step.query))
    ensures Synced(Next(mac, s, step)) && LastingOf(s.entries) <= LastingOf(Next(mac, s, step).entries)
  {
    match step
    case Restart => RestartKeepsSynced(mac, s);
    case Check(q) => RecordKeepsSynced(s, q);
  }

  lemma PlainFront(steps: seq<Step>)
    requires steps != [] && PlainSteps(steps)
    ensures PlainSteps(steps[..|steps| - 1])
    ensures steps[|steps| - 1].Check? ==> PlainQuery(steps[|steps| - 1].query)
  {
    var n := |steps| - 1;
    assert steps[n] in steps;
    assert forall x :: x in steps[..n] ==> x in steps;
  }

  /** Over every run of checks and restarts, memory holds what a restart would load, and what
      else it holds a restart drops; no lasting entry is ever lost. */
  lemma {:induction false} RunKeepsSynced(mac: Mac, s: Store, steps: seq<Step>)
    requires Synced(s) && PlainSteps(steps)
    ensures Synced(Run(mac, s, steps)) && LastingOf(s.entries) <= LastingOf(Run(mac, s, steps).entries)
  {
    if steps != [] {
      var n := |steps| - 1;
      PlainFront(steps);
      RunKeepsSynced(mac, s, steps[..n]);
      StepKeepsSynced(mac, Run(mac, s, steps[..n]), steps[n]);
      PrefixChain(LastingOf(s.entries), LastingOf(Run(mac, s, steps[..n]).entries),
                  LastingOf(Run(mac, s, steps).entries));
    }
  }

  lemma PrefixChain<T>(a: seq<T>, b: seq<T>, c: seq<T>)
    requires a <= b <= c
    ensures a <= c
  {
  }

  lemma TrustGrows(mac: Mac, a: seq<HostEntry>, b: seq<HostEntry>, forms: seq<string>, keyType: string, key: Bytes)
    requires a <= b && Trusted(mac, a, forms, keyType, key)
    ensures Trusted(mac, b, forms, keyType, key)
  {
    var e :| e in a && Applies(mac, e, forms, keyType) && Decode(e.keyText) == Some(key);
    assert e in b;
  }

  lemma RecordedIsTrusted(mac: Mac, s: Store, q: Query)
    ensures StatusOf(mac, Record(s, q), q) == Match
  {
    var form := CanonicalForm(q.host, q.port);
    var e := EntryOf(form, q.keyType, q.key);
    Base64RoundTrip(q.key);
    assert form in [form] && form in LookupForms(q.host, q.port);
    assert e in Record(s, q).entries;
    assert Applies(mac, e, LookupForms(q.host, q.port), q.keyType);
  }

  lemma LastingMember(entries: seq<HostEntry>, e: HostEntry)
    ensures e in LastingOf(entries) <==> e in entries && Lasting(e)
  {
    FilterMember(entries, (x: HostEntry) => Lasting(x), e);
  }

  /** A lasting key is trusted through a lasting entry, any other through none. */
  lemma TrustedByLasting(mac: Mac, entries: seq<HostEntry>, forms: seq<string>, keyType: string, key: Bytes)
    ensures Trusted(mac, LastingOf(entries), forms, keyType, key) <==>
            Trusted(mac, entries, forms, keyType, key) && Lasts(keyType, key)
  {
    forall e ensures e in LastingOf(entries) <==> e in entries && Lasting(e) {
      LastingMember(entries, e);
    }
    if Trusted(mac, entries, forms, keyType, key) && Lasts(keyType, key) {
      var e :| e in entries && Applies(mac, e, forms, keyType) && Decode(e.keyText) == Some(key);
      assert e in LastingOf(entries);
    }
  }

  lemma KnownByLasting(mac: Mac, entries: seq<HostEntry>, forms: seq<string>, keyType: string)
    requires Known(mac, LastingOf(entries), forms, keyType)
    ensures Known(mac, entries, forms, keyType) && IsKnownKeyType(keyType)
  {
    var e :| e in LastingOf(entries) && Applies(mac, e, forms, keyType);
    LastingMember(entries, e);
  }

  // ---------- The accepted key ----------

  /** Over every later run this key gets this verdict. */
  ghost predicate AlwaysGets(mac: Mac, s: Store, q: Query, status: VerifyStatus)
  {
    forall steps :: PlainSteps(steps) ==> StatusOf(mac, Run(mac, s, steps), q) == status
  }

  lemma OneStep(mac: Mac, s: Store, step: Step)
    ensures Run(mac, s, [step]) == Next(mac, s, step)
  {
    assert [step][..0] == [];
  }

  lemma TwoSteps(mac: Mac, s: Store, first: Step, second: Step)
    ensures Run(mac, s, [first, second]) == Next(mac, Next(mac, s, first), second)
  {
    assert [first, second][..1] == [first];
    OneStep(mac, s, first);
  }

  lemma MatchesForever(mac: Mac, s: Store, q: Query, steps: seq<Step>)
    requires Synced(s) && PlainSteps(steps) && StatusOf(mac, s, q) == Match && Lasts(q.keyType, q.key)
    ensures StatusOf(mac, Run(mac, s, steps), q) == Match
  {
    var forms, r := LookupForms(q.host, q.port), Run(mac, s, steps);
    RunKeepsSynced(mac, s, steps);
    TrustedByLasting(mac, s.entries, forms, q.keyType, q.key);
    TrustGrows(mac, LastingOf(s.entries), LastingOf(r.entries), forms, q.keyType, q.key);
    TrustedByLasting(mac, r.entries, forms, q.keyType, q.key);
  }

  lemma ForgottenByRestart(mac: Mac, s: Store, q: Query)
    requires Synced(s) && !Lasts(q.keyType, q.key)
    ensures StatusOf(mac, Next(mac, s, Restart), q) != Match
  {
    RestartKeepsSynced(mac, s);
    TrustedByLasting(mac, s.entries, LookupForms(q.host, q.port), q.keyType, q.key);
  }

  /** A key that matches matches forever if and only if its type is a listed one and it is not
      empty. */
  lemma MatchesForeverIff(mac: Mac, s: Store, q: Query)
    requires Synced(s) && StatusOf(mac, s, q) == Match
    ensures AlwaysGets(mac, s, q, Match) <==> Lasts(q.keyType, q.key)
  {
    if Lasts(q.keyType, q.key) {
      forall steps | PlainSteps(steps) ensures StatusOf(mac, Run(mac, s, steps), q) == Match {
        MatchesForever(mac, s, q, steps);
      }
    } else {
      ForgottenByRestart(mac, s, q);
      OneStep(mac, s, Restart);
      assert PlainSteps([Restart]);
    }
  }

  lemma AcceptedMatches(mac: Mac, s: Store, q: Query)
    requires Synced(s) && PlainQuery(q) && CheckedVerdict(mac, AcceptNew, s, q).Ok?
    ensures Synced(Next(mac, s, Check(q))) && StatusOf(mac, Next(mac, s, Check(q)), q) == Match
  {
    StepKeepsSynced(mac, s, Check(q));
    if StatusOf(mac, s, q) == Unknown {
      RecordedIsTrusted(mac, s, q);
    }
  }

  /** A key that was accepted once is accepted after every later run, restarts included, if and
      only if its type is a listed one and it is not empty. */
  lemma AcceptedForeverIff(mac: Mac, s: Store, q: Query)
    requires Synced(s) && PlainQuery(q) && CheckedVerdict(mac, AcceptNew, s, q).Ok?
    ensures AlwaysGets(mac, Next(mac, s, Check(q)), q, Match) <==> Lasts(q.keyType, q.key)
  {
    AcceptedMatches(mac, s, q);
    MatchesForeverIff(mac, Next(mac, s, Check(q)), q);
  }

  /** The name the client gives a key type the SSH library cannot tell. */
  const UNLISTED_TYPE := "ssh-unknown"

  lemma UnlistedIsToken()
    ensures IsToken(UNLISTED_TYPE) && !IsKnownKeyType(UNLISTED_TYPE)
  {
  }

  /** The failing input: under that type the first key is accepted and pins the host in memory,
      every other key is rejected, and after one restart the other key is the one accepted. */
  lemma UnlistedTypeIsForgotten(mac: Mac, s: Store, q: Query, other: Bytes)
    requires Synced(s) && CleanForm(q.host) && q.port == 22 && q.keyType == UNLISTED_TYPE
    requires StatusOf(mac, s, q) == Unknown && other != q.key
    ensures var s1 := Next(mac, s, Check(q));
            var s2 := Next(mac, s1, Restart);
            var q' := q.(key := other);
            && CheckedVerdict(mac, AcceptNew, s, q) == Ok(())
            && Pinned(mac, s1.entries, q.host, 22, q.keyType)
            && CheckedVerdict(mac, AcceptNew, s1, q') == Err(HostKeyMismatch(q.host, q.keyType))
            && CheckedVerdict(mac, AcceptNew, s2, q') == Ok(())
            && CheckedVerdict(mac, AcceptNew, Next(mac, s2, Check(q')), q) == Err(HostKeyMismatch(q.host, q.keyType))
  {
    var s1 := Next(mac, s, Check(q));
    var s2, q' := Next(mac, s1, Restart), q.(key := other);
    UnlistedIsToken();
    StepKeepsSynced(mac, s, Check(q));
    RestartKeepsSynced(mac, s1);
    FirstContactDecides(mac, s, q, other);
    UnlistedIsUnknown(mac, s1, q');
    FirstContactDecides(mac, s2, q', q.key);
    assert LookupForms(q.host, 22) == [q.host];
  }

  lemma FirstContactDecides(mac: Mac, s: Store, q: Query, other: Bytes)
    requires StatusOf(mac, s, q) == Unknown && other != q.key
    ensures Known(mac, Record(s, q).entries, LookupForms(q.host, q.port), q.keyType)
    ensures StatusOf(mac, Record(s, q), q.(key := other)) == Mismatch
  {
    var e, after := EntryOf(CanonicalForm(q.host, q.port), q.keyType, q.key), Record(s, q).entries;
    RecordedIsTrusted(mac, s, q);
    Base64RoundTrip(q.key);
    assert forall x :: x in after <==> x in s.entries || x == e;
  }

  lemma UnlistedIsUnknown(mac: Mac, s: Store, q: Query)
    requires Synced(s) && !IsKnownKeyType(q.keyType)
    ensures StatusOf(mac, Next(mac, s, Restart), q) == Unknown
  {
    RestartKeepsSynced(mac, s);
    ForgottenByRestart(mac, s, q);
    if Known(mac, LastingOf(s.entries), LookupForms(q.host, q.port), q.keyType) {
      KnownByLasting(mac, s.entries, LookupForms(q.host, q.port), q.keyType);
    }
  }

  // ---------- Pinning ----------

  /** Every name the host is looked up under has a key of that type. */
  ghost predicate Pinned(mac: Mac, entries: seq<HostEntry>, host: string, port: Port, keyType: string)
  {
    forall form :: form in LookupForms(host, port) ==> Known(mac, entries, [form], keyType)
  }

  lemma KnownUnder(mac: Mac, entries: seq<HostEntry>, form: string, forms: seq<string>, keyType: string)
    requires Known(mac, entries, [form], keyType) && form in forms
    ensures Known(mac, entries, forms, keyType)
  {
    var e :| e in entries && Applies(mac, e, [form], keyType);
    assert Applies(mac, e, forms, keyType);
  }

  lemma KnownGrows(mac: Mac, a: seq<HostEntry>, b: seq<HostEntry>, forms: seq<string>, keyType: string)
    requires a <= b && Known(mac, a, forms, keyType)
    ensures Known(mac, b, forms, keyType)
  {
    var e :| e in a && Applies(mac, e, forms, keyType);
    assert e in b;
  }

  /** Once a host is pinned no step records another entry that applies to it. */
  lemma PinnedRecordsNothing(mac: Mac, s: Store, host: string, port: Port, keyType: string, q: Query)
    requires Pinned(mac, s.entries, host, port, keyType) && StatusOf(mac, s, q) == Unknown
    ensures !Applies(mac, EntryOf(CanonicalForm(q.host, q.port), q.keyType, q.key), LookupForms(host, port), keyType)
  {
    var form := CanonicalForm(q.host, q.port);
    if form in LookupForms(host, port) && q.keyType == keyType {
      assert Known(mac, s.entries, [form], keyType);
      KnownUnder(mac, s.entries, form, LookupForms(q.host, q.port), keyType);
    }
  }

  lemma PinnedByLasting(mac: Mac, entries: seq<HostEntry>, host: string, port: Port, keyType: string)
    requires Pinned(mac, LastingOf(entries), host, port, keyType)
    ensures Pinned(mac, entries, host, port, keyType)
  {
    forall form | form in LookupForms(host, port) ensures Known(mac, entries, [form], keyType) {
      KnownByLasting(mac, entries, [form], keyType);
    }
  }

  /** The host is pinned for good, and this key is not its key. */
  ghost predicate LockedOut(mac: Mac, entries: seq<HostEntry>, q: Query)
  {
    && Pinned(mac, LastingOf(entries), q.host, q.port, q.keyType)
    && !Trusted(mac, entries, LookupForms(q.host, q.port), q.keyType, q.key)
  }

  lemma LockedOutMismatches(mac: Mac, s: Store, q: Query)
    requires LockedOut(mac, s.entries, q)
    ensures StatusOf(mac, s, q) == Mismatch
  {
    var forms := LookupForms(q.host, q.port);
    assert q.host in forms;
    KnownUnder(mac, LastingOf(s.entries), q.host, forms, q.keyType);
    KnownByLasting(mac, s.entries, forms, q.keyType);
  }

  lemma LockedOutStep(mac: Mac, s: Store, step: Step, q: Query)
    requires Synced(s) && (step.Check? ==> PlainQuery(step.query)) && LockedOut(mac, s.entries, q)
    ensures LockedOut(mac, Next(mac, s, step).entries, q)
  {
    var s', forms := Next(mac, s, step), LookupForms(q.host, q.port);
    StepKeepsSynced(mac, s, step);
    forall form | form in forms ensures Known(mac, LastingOf(s'.entries), [form], q.keyType) {
      KnownGrows(mac, LastingOf(s.entries), LastingOf(s'.entries), [form], q.keyType);
    }
    match step
    case Restart =>
      RestartKeepsSynced(mac, s);
      TrustedByLasting(mac, s.entries, forms, q.keyType, q.key);
    case Check(q') =>
      if StatusOf(mac, s, q') == Unknown {
        PinnedByLasting(mac, s.entries, q.host, q.port, q.keyType);
        PinnedRecordsNothing(mac, s, q.host, q.port, q.keyType, q');
        OneMoreEntry(mac, s.entries, EntryOf(CanonicalForm(q'.host, q'.port), q'.keyType, q'.key), forms, q.keyType,
                     q.key);
      }
  }

  lemma OneMoreEntry(mac: Mac, entries: seq<HostEntry>, e: HostEntry, forms: seq<string>, keyType: string, key: Bytes)
    requires !Applies(mac, e, forms, keyType)
    ensures Status(mac, entries + [e], forms, keyType, key) == Status(mac, entries, forms, keyType, key)
  {
    assert forall x :: x in entries + [e] <==> x in entries || x == e;
  }

  lemma {:induction false} LockedOutForever(mac: Mac, s: Store, steps: seq<Step>, q: Query)
    requires Synced(s) && PlainSteps(steps) && LockedOut(mac, s.entries, q)
    ensures LockedOut(mac, Run(mac, s, steps).entries, q)
  {
    if steps != [] {
      var n := |steps| - 1;
      PlainFront(steps);
      LockedOutForever(mac, s, steps[..n], q);
      RunKeepsSynced(mac, s, steps[..n]);
      LockedOutStep(mac, Run(mac, s, steps[..n]), steps[n], q);
    }
  }

  // ---------- Names without an entry ----------

  /** While no entry applies to a name the host is looked up under, a first contact of a host of that very name makes
      its key, whichever it is, match for this host as well. */
  lemma UnpinnedNameMatches(mac: Mac, s: Store, q: Query, form: string)
    requires form in LookupForms(q.host, q.port) && !Known(mac, s.entries, [form], q.keyType)
    ensures StatusOf(mac, Next(mac, s, Check(Query(form, 22, q.keyType, q.key))), q) == Match
  {
    var q' := Query(form, 22, q.keyType, q.key);
    assert LookupForms(form, 22) == [form];
    assert StatusOf(mac, s, q') == Unknown;
    var e := EntryOf(form, q.keyType, q.key);
    Base64RoundTrip(q.key);
    assert form in [form];
    assert e in Next(mac, s, Check(q')).entries;
    assert Applies(mac, e, LookupForms(q.host, q.port), q.keyType);
  }

  /** So on a port other than 22 a first contact of the bare name on port 22 brings in a second key. */
  lemma BareNameReachesOtherPorts(mac: Mac, s: Store, q: Query)
    requires !Known(mac, s.entries, [q.host], q.keyType)
    ensures StatusOf(mac, Next(mac, s, Check(q.(port := 22))), q) == Match
  {
    assert q.host in LookupForms(q.host, q.port);
    UnpinnedNameMatches(mac, s, q, q.host);
  }

  lemma LookupFormsAreClean(host: string, port: Port, form: string)
    requires CleanForm(host) && form in LookupForms(host, port)
    ensures CleanForm(form)
  {
    if form != host {
      var digits := Yaml.NatToString(port);
      assert form == "[" + host + "]:" + digits;
      forall i | 0 <= i < |form| ensures !IsWhitespace(form[i]) && form[i] != ',' {
        if 1 <= i <= |host| {
          assert form[i] == host[i - 1];
        } else if i > |host| + 2 {
          assert form[i] == digits[i - |host| - 3];
          assert digits[i - |host| - 3] in digits;
        }
      }
      assert form[0] == '[';
    }
  }

  /** A host name and a key type fit to be recorded. */
  predicate PlainHost(q: Query)
  {
    CleanForm(q.host) && IsToken(q.keyType)
  }

  lemma LetsAnotherIn(mac: Mac, s: Store, q: Query, form: string)
    requires Synced(s) && PlainHost(q)
    requires form in LookupForms(q.host, q.port) && !Known(mac, LastingOf(s.entries), [form], q.keyType)
    ensures !AlwaysGets(mac, s, q, Mismatch)
  {
    var q' := Query(form, 22, q.keyType, q.key);
    RestartKeepsSynced(mac, s);
    LookupFormsAreClean(q.host, q.port, form);
    UnpinnedNameMatches(mac, Next(mac, s, Restart), q, form);
    TwoSteps(mac, s, Restart, Check(q'));
    RestartThenCheckIsPlain(q');
    NotAlways(mac, s, q, Mismatch, [Restart, Check(q')]);
  }

  lemma RestartThenCheckIsPlain(q: Query)
    requires PlainQuery(q)
    ensures PlainSteps([Restart, Check(q)])
  {
  }

  lemma NotAlways(mac: Mac, s: Store, q: Query, status: VerifyStatus, steps: seq<Step>)
    requires PlainSteps(steps) && StatusOf(mac, Run(mac, s, steps), q) != status
    ensures !AlwaysGets(mac, s, q, status)
  {
  }

  // ---------- Every verdict ----------

  /** A mismatching key is rejected over every run if and only if every name the host is looked up under has a lasting
      entry of that key type. */
  lemma RejectedForeverIff(mac: Mac, s: Store, q: Query)
    requires Synced(s) && PlainHost(q) && StatusOf(mac, s, q) == Mismatch
    ensures AlwaysGets(mac, s, q, Mismatch) <==> Pinned(mac, LastingOf(s.entries), q.host, q.port, q.keyType)
  {
    if Pinned(mac, LastingOf(s.entries), q.host, q.port, q.keyType) {
      forall steps | PlainSteps(steps) ensures StatusOf(mac, Run(mac, s, steps), q) == Mismatch {
        LockedOutForever(mac, s, steps, q);
        LockedOutMismatches(mac, Run(mac, s, steps), q);
      }
    } else {
      var form :| form in LookupForms(q.host, q.port) && !Known(mac, LastingOf(s.entries), [form], q.keyType);
      LetsAnotherIn(mac, s, q, form);
    }
  }

  lemma HostFormIsClean(q: Query)
    requires PlainHost(q)
    ensures PlainQuery(q)
  {
    LookupFormsAreClean(q.host, q.port, CanonicalForm(q.host, q.port));
  }

  /** An unknown key is unknown only until it is checked. */
  lemma UnknownNeverStays(mac: Mac, s: Store, q: Query)
    requires Synced(s) && PlainHost(q) && StatusOf(mac, s, q) == Unknown
    ensures !AlwaysGets(mac, s, q, Unknown)
  {
    HostFormIsClean(q);
    AcceptedMatches(mac, s, q);
    OneStep(mac, s, Check(q));
    assert PlainSteps([Check(q)]);
  }

  /** Exactly when a verdict is final. */
  lemma VerdictForeverIff(mac: Mac, s: Store, q: Query)
    requires Synced(s) && PlainHost(q)
    ensures AlwaysGets(mac, s, q, StatusOf(mac, s, q)) <==>
            match StatusOf(mac, s, q)
            case Match => Lasts(q.keyType, q.key)
            case Mismatch => Pinned(mac, LastingOf(s.entries), q.host, q.port, q.keyType)
            case Unknown => false
  {
    match StatusOf(mac, s, q)
    case Match => MatchesForeverIff(mac, s, q);
    case Mismatch => RejectedForeverIff(mac, s, q);
    case Unknown => UnknownNeverStays(mac, s, q);
  }

  // ---------- Trust on first use, then verify forever after ----------

  /** The accepted key stays accepted, and every key rejected now stays rejected. */
  ghost predicate VerifiedForever(mac: Mac, s: Store, q: Query)
  {
    && AlwaysGets(mac, s, q, Match)
    && forall key :: StatusOf(mac, s, q.(key := key)) == Mismatch ==> AlwaysGets(mac, s, q.(key := key), Mismatch)
  }

  function LongestKey(entries: seq<HostEntry>): nat
  {
    if entries == [] then 0
    else
      var n := |entries| - 1;
      var before := LongestKey(entries[..n]);
      match Decode(entries[n].keyText)
      case Some(key) => if |key| > before then |key| else before
      case None => before
  }

  lemma {:induction false} KeysAreShort(entries: seq<HostEntry>, e: HostEntry)
    requires e in entries && Decode(e.keyText).Some?
    ensures |Decode(e.keyText).value| <= LongestKey(entries)
  {
    var n := |entries| - 1;
    if e != entries[n] {
      KeysAreShort(entries[..n], e);
    }
  }

  /** There is always a key nobody has. */
  lemma UntrustedKey(mac: Mac, entries: seq<HostEntry>, forms: seq<string>, keyType: string) returns (key: Bytes)
    ensures !Trusted(mac, entries, forms, keyType, key)
  {
    key := seq(LongestKey(entries) + 1, _ => 0);
    forall e | e in entries ensures Decode(e.keyText) != Some(key) {
      if Decode(e.keyText).Some? {
        KeysAreShort(entries, e);
      }
    }
  }

  /** Once a key was accepted, it is verified forever after if and only if its type is a listed
      one, it is not empty, and every name the host is looked up under has a lasting entry. */
  lemma VerifiedForeverIff(mac: Mac, s: Store, q: Query)
    requires Synced(s) && PlainHost(q) && CheckedVerdict(mac, AcceptNew, s, q).Ok?
    ensures var s' := Next(mac, s, Check(q));
            VerifiedForever(mac, s', q) <==>
            Lasts(q.keyType, q.key) && Pinned(mac, LastingOf(s'.entries), q.host, q.port, q.keyType)
  {
    var s', forms := Next(mac, s, Check(q)), LookupForms(q.host, q.port);
    HostFormIsClean(q);
    AcceptedMatches(mac, s, q);
    MatchesForeverIff(mac, s', q);
    forall key | StatusOf(mac, s', q.(key := key)) == Mismatch
      ensures AlwaysGets(mac, s', q.(key := key), Mismatch) <==>
              Pinned(mac, LastingOf(s'.entries), q.host, q.port, q.keyType)
    {
      RejectedForeverIff(mac, s', q.(key := key));
    }
    var other := UntrustedKey(mac, s'.entries, forms, q.keyType);
    assert Known(mac, s'.entries, forms, q.keyType);
    assert StatusOf(mac, s', q.(key := other)) == Mismatch;
  }

  /** On the default port, with its single name, the listed type and the non-empty key are enough. */
  lemma DefaultPortVerifiedForeverIff(mac: Mac, s: Store, q: Query)
    requires Synced(s) && PlainHost(q) && q.port == 22 && CheckedVerdict(mac, AcceptNew, s, q).Ok?
    ensures VerifiedForever(mac, Next(mac, s, Check(q)), q) <==> Lasts(q.keyType, q.key)
  {
    var s' := Next(mac, s, Check(q));
    VerifiedForeverIff(mac, s, q);
    HostFormIsClean(q);
    AcceptedMatches(mac, s, q);
    assert LookupForms(q.host, 22) == [q.host];
    TrustedByLasting(mac, s'.entries, [q.host], q.keyType, q.key);
  }
}
