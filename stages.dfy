/**
 * The stage machine of one addon (doAllWorkForAddonHelper and the per-addon loop of doLoadAddons),
 * over abstract stage outcomes. Each stage function reports `true` when it ran to completion and
 * `false` when it gave up (no `addons` folder, no archive listing) or saw the addon cancelled; on
 * the way it announces its step, and it announces the step's end only on completion.
 */
module AddonStages {

  datatype Step = ExtractPBOs | DeBinarizeConfigs | ParseConfigs | SaveReferences | Cleanup

  /** The callback events of one addon, in the order they are emitted (messages left out). */
  datatype Event = IndexStartedForAddon | StepStart(step: Step) | StepFinish(step: Step) | IndexFinishedForAddon

  /**
   * What the world does to one addon's stages. `...SeesCancel` says that the helper was found
   * cancelled when that stage checked its flag.
   */
  datatype Scenario = Scenario(
    addonsFolderFound: bool,    // a child named "addons" (ignoring case) exists
    pboListingRead: bool,        // listing the .pbo files of that folder did not return null
    extractSeesCancel: bool,
    debinarizeSeesCancel: bool,
    hasConfigs: bool,            // at least one config reaches the parse loop
    parseSeesCancel: bool,
    referenceDirCreated: bool,   // mkdirs of the addon's reference directory succeeded
    saveSeesCancel: bool)

  /** A stage's boolean result and the step events it emitted. */
  datatype StageRun = StageRun(returned: bool, events: seq<Event>)

  /** extractPBOsForHelper. */
  function ExtractStage(s: Scenario): (r: StageRun)
    ensures r.returned <==> s.addonsFolderFound && s.pboListingRead && !s.extractSeesCancel
  {
    if !s.addonsFolderFound || !s.pboListingRead then StageRun(false, [])
    else if s.extractSeesCancel then StageRun(false, [StepStart(ExtractPBOs)])
    else StageRun(true, [StepStart(ExtractPBOs), StepFinish(ExtractPBOs)])
  }

  /** debinarizeConfigsForHelper. */
  function DebinarizeStage(s: Scenario): (r: StageRun)
    ensures r.returned <==> !s.debinarizeSeesCancel
  {
    if s.debinarizeSeesCancel then StageRun(false, [StepStart(DeBinarizeConfigs)])
    else StageRun(true, [StepStart(DeBinarizeConfigs), StepFinish(DeBinarizeConfigs)])
  }

  /** parseConfigsForHelper: the flag is checked once per config, so with no config it is never seen. */
  function ParseStage(s: Scenario): (r: StageRun)
    ensures r.returned <==> !(s.hasConfigs && s.parseSeesCancel)
  {
    if s.hasConfigs && s.parseSeesCancel then StageRun(false, [StepStart(ParseConfigs)])
    else StageRun(true, [StepStart(ParseConfigs), StepFinish(ParseConfigs)])
  }

  /** The save block at the end of doAllWorkForAddonHelper (it returns nothing). */
  function SaveStage(s: Scenario): seq<Event>
  {
    if !s.referenceDirCreated then []
    else if s.saveSeesCancel then [StepStart(SaveReferences)]
    else [StepStart(SaveReferences), StepFinish(SaveReferences)]
  }

  /**
   * doAllWorkForAddonHelper as written: `if (stage(...)) return;` moves on to the next stage only
   * when the previous one returned false.
   */
  function DoAllWorkAsWritten(s: Scenario): seq<Event>
  {
    var e := ExtractStage(s);
    if e.returned then e.events
    else
      var d := DebinarizeStage(s);
      if d.returned then e.events + d.events
      else
        var p := ParseStage(s);
        if p.returned then e.events + d.events + p.events
        else e.events + d.events + p.events + SaveStage(s)
  }

  /** As written, a successful extraction is the end of the addon: nothing is converted, parsed or saved. */
  lemma SuccessfulExtractionStopsAddon(s: Scenario)
    requires s.addonsFolderFound && s.pboListingRead && !s.extractSeesCancel
    ensures DoAllWorkAsWritten(s) == [StepStart(ExtractPBOs), StepFinish(ExtractPBOs)]
    ensures StepStart(ParseConfigs) !in DoAllWorkAsWritten(s)
  {
  }

  /** As written, an addon without an `addons` folder still goes on to conversion. */
  lemma MissingAddonsFolderContinues(s: Scenario)
    requires !s.addonsFolderFound && !s.debinarizeSeesCancel
    ensures DoAllWorkAsWritten(s) == [StepStart(DeBinarizeConfigs), StepFinish(DeBinarizeConfigs)]
  {
  }

  /**
   * doAllWorkForAddonHelper as its stage functions document it ("true if the extraction was
   * successful"): each stage runs only when the one before it returned true.
   */
  function DoAllWork(s: Scenario): seq<Event>
  {
    var e := ExtractStage(s);
    if !e.returned then e.events
    else
      var d := DebinarizeStage(s);
      if !d.returned then e.events + d.events
      else
        var p := ParseStage(s);
        if !p.returned then e.events + d.events + p.events
        else e.events + d.events + p.events + SaveStage(s)
  }

  /** The events are a run of completed steps: each start immediately followed by its own finish. */
  ghost predicate Bracketed(events: seq<Event>)
  {
    |events| % 2 == 0
    && forall i :: 0 <= i < |events| / 2 ==>
         events[2 * i].StepStart? && events[2 * i + 1] == StepFinish(events[2 * i].step)
  }

  /** The steps opened by a run of events, in order. */
  function StepsStarted(events: seq<Event>): (steps: seq<Step>)
    ensures |steps| <= |events|
  {
    if events == [] then []
    else (if events[0].StepStart? then [events[0].step] else []) + StepsStarted(events[1..])
  }

  lemma {:induction false} StepsStartedAppend(a: seq<Event>, b: seq<Event>)
    ensures StepsStarted(a + b) == StepsStarted(a) + StepsStarted(b)
  {
    if a == [] {
      assert a + b == b;
    } else {
      var head := if a[0].StepStart? then [a[0].step] else [];
      assert (a + b)[0] == a[0];
      assert (a + b)[1..] == a[1..] + b;
      assert StepsStarted(a + b) == head + StepsStarted(a[1..] + b);
      assert StepsStarted(a) == head + StepsStarted(a[1..]);
      StepsStartedAppend(a[1..], b);
    }
  }

  lemma BracketedAppend(a: seq<Event>, b: seq<Event>)
    requires Bracketed(a) && Bracketed(b)
    ensures Bracketed(a + b)
  {
    var c := a + b;
    forall i | 0 <= i < |c| / 2
      ensures c[2 * i].StepStart? && c[2 * i + 1] == StepFinish(c[2 * i].step)
    {
      if i < |a| / 2 {
        assert c[2 * i] == a[2 * i] && c[2 * i + 1] == a[2 * i + 1];
      } else {
        var k := i - |a| / 2;
        assert 0 <= k < |b| / 2;
        assert c[2 * i] == b[2 * k] && c[2 * i + 1] == b[2 * k + 1];
      }
    }
  }

  /**
   * The stages run in pipeline order and stop at the first that does not complete; the save step
   * opens only when the reference directory can be made.
   */
  lemma DoAllWorkOrder(s: Scenario)
    ensures StepsStarted(DoAllWork(s)) ==
      if !ExtractStage(s).returned then (if s.addonsFolderFound && s.pboListingRead then [ExtractPBOs] else [])
      else if !DebinarizeStage(s).returned then [ExtractPBOs, DeBinarizeConfigs]
      else if !ParseStage(s).returned then [ExtractPBOs, DeBinarizeConfigs, ParseConfigs]
      else if s.referenceDirCreated then [ExtractPBOs, DeBinarizeConfigs, ParseConfigs, SaveReferences]
      else [ExtractPBOs, DeBinarizeConfigs, ParseConfigs]
  {
    var e, d, p := ExtractStage(s), DebinarizeStage(s), ParseStage(s);
    assert StepsStarted([StepStart(ExtractPBOs)]) == [ExtractPBOs];
    assert StepsStarted(e.events) == (if s.addonsFolderFound && s.pboListingRead then [ExtractPBOs] else []);
    if e.returned {
      assert StepsStarted(d.events) == [DeBinarizeConfigs];
      StepsStartedAppend(e.events, d.events);
      if d.returned {
        assert StepsStarted(p.events) == [ParseConfigs];
        StepsStartedAppend(e.events + d.events, p.events);
        if p.returned {
          assert s.referenceDirCreated ==> StepsStarted(SaveStage(s)) == [SaveReferences];
          assert !s.referenceDirCreated ==> SaveStage(s) == [];
          StepsStartedAppend(e.events + d.events + p.events, SaveStage(s));
        }
      }
    }
  }
  /** When every stage completes and the reference directory is made, all four steps open and close, in order. */
  lemma DoAllWorkComplete(s: Scenario)
    requires s.addonsFolderFound && s.pboListingRead && !s.extractSeesCancel && !s.debinarizeSeesCancel
    requires !(s.hasConfigs && s.parseSeesCancel) && s.referenceDirCreated && !s.saveSeesCancel
    ensures DoAllWork(s) == [StepStart(ExtractPBOs), StepFinish(ExtractPBOs),
                             StepStart(DeBinarizeConfigs), StepFinish(DeBinarizeConfigs),
                             StepStart(ParseConfigs), StepFinish(ParseConfigs),
                             StepStart(SaveReferences), StepFinish(SaveReferences)]
  {
  }


  /**
   * Every step an addon opens is closed right after, unless a stage that ran saw the addon
   * cancelled: a cancelled stage returns between its start and its finish.
   */
  lemma DoAllWorkBracketedUnlessCancelled(s: Scenario)
    requires !s.extractSeesCancel && !s.debinarizeSeesCancel && !s.parseSeesCancel && !s.saveSeesCancel
    ensures Bracketed(DoAllWork(s))
  {
    var e, d, p := ExtractStage(s), DebinarizeStage(s), ParseStage(s);
    assert Bracketed(e.events) && Bracketed(d.events) && Bracketed(p.events) && Bracketed(SaveStage(s));
    BracketedAppend(e.events, d.events);
    BracketedAppend(e.events + d.events, p.events);
    BracketedAppend(e.events + d.events + p.events, SaveStage(s));
  }

  /** A cancellation seen by the extraction leaves its step open. */
  lemma CancelledExtractionLeavesStepOpen(s: Scenario)
    requires s.addonsFolderFound && s.pboListingRead && s.extractSeesCancel
    ensures DoAllWork(s) == [StepStart(ExtractPBOs)] && !Bracketed(DoAllWork(s))
  {
  }

  // ---------------------------------------------------------------------------------------------
  // One pass of the per-addon loop of doLoadAddons.

  /**
   * The events of one helper: none if it was cancelled before its turn; otherwise start, then
   * either the parse of the cached configs (a reference-cache hit) or the full stage sequence,
   * then the cleanup step, then finish.
   */
  function AddonEvents(cancelledBeforeTurn: bool, cacheHit: bool, s: Scenario): (events: seq<Event>)
  {
    if cancelledBeforeTurn then []
    else
      [IndexStartedForAddon]
      + (if cacheHit then ParseStage(s).events else DoAllWork(s))
      + [StepStart(Cleanup), StepFinish(Cleanup), IndexFinishedForAddon]
  }

  /** A helper cancelled before its turn emits nothing at all, in particular no step start. */
  lemma CancelledBeforeTurnIsSilent(cacheHit: bool, s: Scenario)
    ensures AddonEvents(true, cacheHit, s) == []
  {
  }

  /** A reference-cache hit issues no extraction and no conversion: only the parse and the cleanup run. */
  lemma CacheHitSkipsExtraction(s: Scenario)
    ensures StepsStarted(AddonEvents(false, true, s)) == [ParseConfigs, Cleanup]
  {
    var p := ParseStage(s).events;
    StepsStartedAppend([IndexStartedForAddon], p);
    StepsStartedAppend([IndexStartedForAddon] + p, [StepStart(Cleanup), StepFinish(Cleanup), IndexFinishedForAddon]);
    assert StepsStarted([StepStart(Cleanup), StepFinish(Cleanup), IndexFinishedForAddon]) == [Cleanup];
    assert StepsStarted(p) == [ParseConfigs];
    assert StepsStarted([IndexStartedForAddon]) == [];
  }

  /** Without a cache hit, the steps opened are those of the stage sequence, then the cleanup. */
  lemma NoCacheHitRunsStages(s: Scenario)
    ensures StepsStarted(AddonEvents(false, false, s)) == StepsStarted(DoAllWork(s)) + [Cleanup]
  {
    var w := DoAllWork(s);
    StepsStartedAppend([IndexStartedForAddon], w);
    StepsStartedAppend([IndexStartedForAddon] + w, [StepStart(Cleanup), StepFinish(Cleanup), IndexFinishedForAddon]);
    assert StepsStarted([StepStart(Cleanup), StepFinish(Cleanup), IndexFinishedForAddon]) == [Cleanup];
    assert StepsStarted([IndexStartedForAddon]) == [];
  }
}
