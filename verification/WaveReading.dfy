/** Which wave an entry belongs to, read off the manifests. */
module WaveReading {
  import opened Common
  import opened Yaml
  import opened Text
  import opened Manifests
  import opened ManifestBodies
  import opened Plan
  import opened Waves

  /** A decimal number with an optional sign, of 32 bits. */
  ghost predicate Written(text: string, n: int)
  {
    -2147483648 <= n <= 2147483647 &&
    exists digits :: digits != "" && AllDigits(digits) &&
      ((n == DigitsValue(digits) && (text == digits || text == "+" + digits)) ||
       (n == 0 - DigitsValue(digits) && text == "-" + digits))
  }

  lemma ParsesWritten(text: string, n: int)
    ensures ParseI32(text) == Some(n) <==> Written(text, n)
  {
    if ParseI32(text) == Some(n) {
      var digits := if text[0] == '-' || text[0] == '+' then text[1..] else text;
      assert text[0] == '-' ==> text == "-" + digits;
      assert text[0] == '+' ==> text == "+" + digits;
      assert AllDigits(digits);
    }
    if Written(text, n) {
      var digits :| digits != "" && AllDigits(digits) &&
        ((n == DigitsValue(digits) && (text == digits || text == "+" + digits)) ||
         (n == 0 - DigitsValue(digits) && text == "-" + digits));
      assert IsDigit(digits[0]);
      assert text != digits ==> text[1..] == digits;
    }
  }

  /** `text` is `s` without the white space around it. */
  ghost predicate Inside(s: string, text: string)
  {
    (text == "" || (!IsWhitespace(text[0]) && !IsWhitespace(text[|text| - 1]))) &&
    exists front, back :: AllWhite(front) && AllWhite(back) && s == front + text + back
  }

  lemma {:induction false} TrimStartIs(front: string, rest: string)
    requires AllWhite(front) && (rest == "" || !IsWhitespace(rest[0]))
    ensures TrimStart(front + rest) == rest
    decreases |front|
  {
    if front == "" {
      assert front + rest == rest;
    } else {
      assert (front + rest)[1..] == front[1..] + rest;
      TrimStartIs(front[1..], rest);
    }
  }

  lemma {:induction false} TrimEndIs(rest: string, back: string)
    requires AllWhite(back) && (rest == "" || !IsWhitespace(rest[|rest| - 1]))
    ensures TrimEnd(rest + back) == rest
    decreases |back|
  {
    if back == "" {
      assert rest + back == rest;
    } else {
      var n := |back| - 1;
      assert (rest + back)[..|rest + back| - 1] == rest + back[..n];
      TrimEndIs(rest, back[..n]);
    }
  }

  lemma TrimsInside(s: string, text: string)
    requires Inside(s, text)
    ensures Trim(s) == text
  {
    var front, back :| AllWhite(front) && AllWhite(back) && s == front + text + back;
    assert s == front + (text + back);
    if text == "" {
      AllWhiteTrims(s);
    } else {
      assert (text + back)[0] == text[0];
      TrimStartIs(front, text + back);
      TrimEndIs(text, back);
    }
  }

  lemma {:induction false} AllWhiteTrims(s: string)
    requires AllWhite(s)
    ensures TrimStart(s) == ""
  {
    if s != "" {
      AllWhiteTrims(s[1..]);
    }
  }

  lemma {:induction false} TrimStartParts(s: string) returns (front: string)
    ensures AllWhite(front) && s == front + TrimStart(s)
    ensures TrimStart(s) != "" ==> !IsWhitespace(TrimStart(s)[0])
  {
    if s != "" && IsWhitespace(s[0]) {
      var rest := TrimStartParts(s[1..]);
      front := [s[0]] + rest;
      assert s == [s[0]] + s[1..];
    } else {
      front := "";
    }
  }

  lemma {:induction false} TrimEndParts(s: string) returns (back: string)
    ensures AllWhite(back) && s == TrimEnd(s) + back
    ensures TrimEnd(s) != "" ==> !IsWhitespace(TrimEnd(s)[|TrimEnd(s)| - 1]) && s != "" && TrimEnd(s)[0] == s[0]
  {
    if s != "" && IsWhitespace(s[|s| - 1]) {
      var rest := TrimEndParts(s[..|s| - 1]);
      back := rest + [s[|s| - 1]];
      assert s == s[..|s| - 1] + [s[|s| - 1]];
    } else {
      back := "";
    }
  }

  lemma TrimIsInside(s: string)
    ensures Inside(s, Trim(s))
  {
    var front := TrimStartParts(s);
    var back := TrimEndParts(TrimStart(s));
    assert s == front + Trim(s) + back;
  }

  /** The annotation carries the wave: a number of 64 bits, brought into 32, or a text that is a
      32-bit number with white space around it. */
  ghost predicate Carries(annotation: Value, wave: int)
  {
    match annotation
    case Number(Int(n)) =>
      -9223372036854775808 <= n <= 9223372036854775807 &&
      wave == (if n < -2147483648 then -2147483648 else if n > 2147483647 then 2147483647 else n)
    case String(s) => exists text :: Inside(s, text) && Written(text, wave)
    case _ => false
  }

  lemma AnnotationCarries(annotations: Value, key: string, wave: int)
    ensures WaveAnnotation(annotations, key) == Some(wave) <==>
            Get(annotations, key).Some? && Carries(Get(annotations, key).value, wave)
  {
    match Get(annotations, key)
    case Some(String(s)) =>
      TrimIsInside(s);
      ParsesWritten(Trim(s), wave);
      forall text | Inside(s, text) ensures text == Trim(s) {
        TrimsInside(s, text);
      }
    case _ =>
  }

  /** The annotation `key` of the object says wave `wave`. */
  ghost predicate Says(body: Value, key: string, wave: int)
  {
    match Get(body, "metadata")
    case Some(meta) => (
      match Get(meta, "annotations")
      case Some(annotations) => Get(annotations, key).Some? && Carries(Get(annotations, key).value, wave)
      case None => false
    )
    case None => false
  }

  ghost predicate Silent(body: Value, key: string)
  {
    forall wave :: !Says(body, key, wave)
  }

  /** What is said is what is read. */
  lemma SaysWhatIsRead(body: Value, key: string, wave: int)
    ensures Says(body, key, wave) <==>
            Annotations(body).Some? && WaveAnnotation(Annotations(body).value, key) == Some(wave)
  {
    if Annotations(body).Some? {
      AnnotationCarries(Annotations(body).value, key, wave);
    }
  }

  lemma SilentUnread(body: Value, key: string)
    requires Annotations(body).Some? && WaveAnnotation(Annotations(body).value, key).None?
    ensures Silent(body, key)
  {
    forall wave ensures !Says(body, key, wave) {
      SaysWhatIsRead(body, key, wave);
    }
  }

  /** The wave of an object: what its own annotation says, else what Argo CD's says, else 0. */
  lemma WaveIsRead(body: Value)
    ensures Says(body, "synchrotron.io/sync-wave", WaveOf(body)) ||
            (Silent(body, "synchrotron.io/sync-wave") &&
              (Says(body, "argocd.argoproj.io/sync-wave", WaveOf(body)) ||
               (Silent(body, "argocd.argoproj.io/sync-wave") && WaveOf(body) == 0)))
  {
    SaysWhatIsRead(body, "synchrotron.io/sync-wave", WaveOf(body));
    SaysWhatIsRead(body, "argocd.argoproj.io/sync-wave", WaveOf(body));
    if Annotations(body).Some? {
      var annotations := Annotations(body).value;
      if WaveAnnotation(annotations, "synchrotron.io/sync-wave").None? {
        SilentUnread(body, "synchrotron.io/sync-wave");
        if WaveAnnotation(annotations, "argocd.argoproj.io/sync-wave").None? {
          SilentUnread(body, "argocd.argoproj.io/sync-wave");
        }
      }
    }
  }

  /** What is said is said once. */
  lemma SaidOnce(body: Value, key: string, v: int, w: int)
    requires Says(body, key, v) && Says(body, key, w)
    ensures v == w
  {
    var annotations := Get(Get(body, "metadata").value, "annotations").value;
    AnnotationCarries(annotations, key, v);
    AnnotationCarries(annotations, key, w);
  }

  // ----- the manifest that is read -----

  predicate FirstOf(ms: seq<Manifest<Body>>, i: int, r: ResourceRef)
  {
    0 <= i < |ms| && Names(ms[i], r) && forall j :: 0 <= j < i ==> !Names(ms[j], r)
  }

  /** The wave of a resource is that of desired's last manifest of it, else of live's first. */
  ghost predicate WaveRead(parse: Bytes -> Value, desired: seq<Manifest<Body>>, live: seq<Manifest<Body>>,
                           r: ResourceRef, wave: int)
  {
    if !Absent(desired, r) then exists i :: LastOf(desired, i, r) && wave == WaveOf(parse(desired[i].body.bytes))
    else if !Absent(live, r) then exists i :: FirstOf(live, i, r) && wave == WaveOf(parse(live[i].body.bytes))
    else wave == 0
  }

  lemma SomeFirstOf(ms: seq<Manifest<Body>>, r: ResourceRef, n: nat) returns (i: nat)
    requires n < |ms| && Names(ms[n], r)
    ensures FirstOf(ms, i, r)
    decreases n
  {
    if forall j :: 0 <= j < n ==> !Names(ms[j], r) {
      i := n;
    } else {
      var j :| 0 <= j < n && Names(ms[j], r);
      i := SomeFirstOf(ms, r, j);
    }
  }

  lemma WaveOfRefIsRead(parse: Bytes -> Value, desired: seq<Manifest<Body>>, live: seq<Manifest<Body>>, r: ResourceRef)
    ensures WaveRead(parse, desired, live, r, WaveOfRef(parse, Deciding(desired, live), r))
  {
    IndexedLast(desired, r);
    if Absent(live, r) {
      NotFilledIn(IndexOf(desired), live, r);
    } else {
      var n :| 0 <= n < |live| && Names(live[n], r);
      var i := SomeFirstOf(live, r, n);
      FirstLiveFillsIn(IndexOf(desired), live, i);
    }
  }

  lemma InGroup(waveOf: ResourceRef -> int, entries: seq<PlanEntry>, wave: int, e: PlanEntry)
    ensures e in GroupOfWave(waveOf, entries, wave).entries <==> e in entries && waveOf(e.resource) == wave
  {
    CountInGroup(waveOf, entries, wave, e);
    assert e in multiset(GroupOfWave(waveOf, entries, wave).entries) <==>
           e in GroupOfWave(waveOf, entries, wave).entries;
    assert e in multiset(entries) <==> e in entries;
  }

  ghost predicate Stands(parse: Bytes -> Value, desired: seq<Manifest<Body>>, live: seq<Manifest<Body>>,
                         e: PlanEntry, g: WaveGroup)
  {
    e in g.entries && WaveRead(parse, desired, live, e.resource, g.wave)
  }

  /** Every entry of the plan stands in the group of the wave that is read for its resource, and
      the groups hold nothing else. */
  lemma EntriesStandInTheirWaves(parse: Bytes -> Value, desired: seq<Manifest<Body>>, live: seq<Manifest<Body>>,
                                 entries: seq<PlanEntry>, waves: seq<WaveGroup>)
    requires var byRef := Deciding(desired, live); IsWavePlan(r => WaveOfRef(parse, byRef, r), entries, waves)
    ensures forall e :: e in entries ==> exists g :: g in waves && Stands(parse, desired, live, e, g)
    ensures forall g, e :: g in waves && e in g.entries ==> e in entries && Stands(parse, desired, live, e, g)
  {
    var byRef := Deciding(desired, live);
    var waveOf := r => WaveOfRef(parse, byRef, r);
    forall e | e in entries ensures exists g :: g in waves && Stands(parse, desired, live, e, g) {
      var g := StandsSomewhere(parse, desired, live, waveOf, entries, waves, e);
    }
    forall g, e | g in waves && e in g.entries ensures e in entries && Stands(parse, desired, live, e, g) {
      StandsHere(parse, desired, live, waveOf, entries, waves, e, g);
    }
  }

  lemma StandsSomewhere(parse: Bytes -> Value, desired: seq<Manifest<Body>>, live: seq<Manifest<Body>>,
                        waveOf: ResourceRef -> int, entries: seq<PlanEntry>, waves: seq<WaveGroup>, e: PlanEntry)
      returns (g: WaveGroup)
    requires waveOf(e.resource) == WaveOfRef(parse, Deciding(desired, live), e.resource)
    requires IsWavePlan(waveOf, entries, waves) && e in entries
    ensures g in waves && Stands(parse, desired, live, e, g)
  {
    g := GroupOfWave(waveOf, entries, waveOf(e.resource));
    InGroup(waveOf, entries, waveOf(e.resource), e);
    WaveOfRefIsRead(parse, desired, live, e.resource);
    assert g in waves;
  }

  lemma StandsHere(parse: Bytes -> Value, desired: seq<Manifest<Body>>, live: seq<Manifest<Body>>,
                   waveOf: ResourceRef -> int, entries: seq<PlanEntry>, waves: seq<WaveGroup>, e: PlanEntry,
                   g: WaveGroup)
    requires waveOf(e.resource) == WaveOfRef(parse, Deciding(desired, live), e.resource)
    requires IsWavePlan(waveOf, entries, waves) && g in waves && e in g.entries
    ensures e in entries && Stands(parse, desired, live, e, g)
  {
    InGroup(waveOf, entries, g.wave, e);
    WaveOfRefIsRead(parse, desired, live, e.resource);
  }
}
