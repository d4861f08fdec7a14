/** What one call of HandleData can do: which debouncers it feeds with what, and which events it
    can bring about. */
module HandlerEffects {
  import opened LinearFit
  import opened Debouncers
  import opened Flight
  import opened DetectionHandlers

  predicate BaromReported(d: Detector, event: nat)
    requires d.Fits() && event < NUM_EVENTS
  {
    d.controller.sources[event][BAROM_MS5611] || d.controller.sources[event][BAROM_BMP]
  }

  predicate EitherPassed(runs: Both<Run>, duration: nat) {
    HasPassed(runs.primary, duration) || HasPassed(runs.secondary, duration)
  }

  predicate BoostDue(imu: Both<Run>, working: SensorWorkings) {
    || (HasPassed(imu.primary, BOOST_TIME) && working.primaryAccOk)
    || (HasPassed(imu.secondary, BOOST_TIME) && working.secondaryAccOk)
  }

  predicate BaromDue(runs: Both<Run>, duration: nat, working: SensorWorkings) {
    || (HasPassed(runs.primary, duration) && working.primaryBarometerOk)
    || (HasPassed(runs.secondary, duration) && working.secondaryBarometerOk)
  }

  lemma DueHasPassed(runs: Both<Run>, duration: nat, working: SensorWorkings)
    ensures BaromDue(runs, duration, working) ==> EitherPassed(runs, duration)
  {}

  ghost predicate BoostEffect(d: Detector, e: Detector, timestamp: nat, data: SensorData, working: SensorWorkings)
    requires d.Fits() && e.Fits()
  {
    && Grown(d.controller, e.controller, BOOST)
    && e == d.(controller := e.controller, imu := e.imu, boostTime := e.boostTime)
    && (d.Has(BOOST) ==> e == d)
    && (!e.Has(BOOST) ==> e.boostTime == d.boostTime)
    && (e.Has(BOOST) && d.boostTime == BOOST_NOT_YET_HAPPENED ==> d.Has(BOOST) || e.boostTime == timestamp)
    && (!d.Has(BOOST) ==>
          && e.imu == FedOver(d.imu, timestamp % WRAP, Magnitudes(data))
          && (e.Has(BOOST) <==> BoostDue(e.imu, working)))
  }

  lemma BoostStageEffect(d: Detector, timestamp: nat, data: SensorData, working: SensorWorkings)
    requires d.Fits()
    ensures BoostEffect(d, BoostStage(d, timestamp, data, working), timestamp, data, working)
  {
    hide SubmitIf, HasPassed;
    var imu := FedOver(d.imu, timestamp % WRAP, Magnitudes(data));
    TwoReports(d.controller, HasPassed(imu.primary, BOOST_TIME) && working.primaryAccOk, HIGH_G_IMU,
               HasPassed(imu.secondary, BOOST_TIME) && working.secondaryAccOk, LOW_G_IMU, BOOST);
  }

  ghost predicate NoseoverEffect(d: Detector, e: Detector, t: nat, working: SensorWorkings)
    requires d.Fits() && e.Fits()
  {
    && Grown(d.controller, e.controller, NOSEOVER)
    && e == d.(controller := e.controller, noseover := e.noseover)
    && (d.Has(NOSEOVER) ==> e == d)
    && (!d.Has(NOSEOVER) ==>
          && e.noseover == FedBothUnder(d.noseover, t, NOSEOVER_VELOCITY, Slopes(d.windows))
          && (e.Has(NOSEOVER) <==> d.Has(NOSEOVER_LOCKOUT) && BaromDue(e.noseover, NOSEOVER_TIME, working)))
  }

  lemma NoseoverStageEffect(d: Detector, timestamp: nat, working: SensorWorkings)
    requires d.Fits()
    ensures NoseoverEffect(d, NoseoverStage(d, timestamp, working), TPlus(timestamp, d.boostTime), working)
  {
    hide SubmitIf, HasPassed;
    var runs := FedBothUnder(d.noseover, TPlus(timestamp, d.boostTime), NOSEOVER_VELOCITY, Slopes(d.windows));
    var unlocked := d.Has(NOSEOVER_LOCKOUT);
    var first := HasPassed(runs.primary, NOSEOVER_TIME) && unlocked && working.primaryBarometerOk;
    SubmitIfGrows(d.controller, first, BAROM_MS5611, NOSEOVER);
    TwoReports(d.controller, first, BAROM_MS5611,
               HasPassed(runs.secondary, NOSEOVER_TIME) && unlocked && working.secondaryBarometerOk,
               BAROM_BMP, NOSEOVER);
  }

  ghost predicate GroundEffect(d: Detector, e: Detector, t: nat, working: SensorWorkings)
    requires d.Fits() && e.Fits()
  {
    && Grown(d.controller, e.controller, GROUND_HIT)
    && e == d.(controller := e.controller, ground := e.ground)
    && (!d.Has(NOSEOVER) || d.Has(GROUND_HIT) ==> e == d)
    && (d.Has(NOSEOVER) && !d.Has(GROUND_HIT) ==>
          && e.ground == FedBothUnder(d.ground, t, GROUND_VELOCITY, Speeds(Slopes(d.windows)))
          && (e.Has(GROUND_HIT) <==> BaromDue(e.ground, GROUND_TIME, working))
          && (e.Has(GROUND_HIT) ==> BaromReported(e, GROUND_HIT))
          && (BaromReported(e, GROUND_HIT) ==> BaromReported(d, GROUND_HIT) || e.Has(GROUND_HIT))
          && (BaromReported(d, GROUND_HIT) ==> BaromReported(e, GROUND_HIT)))
  }

  lemma GroundStageEffect(d: Detector, timestamp: nat, working: SensorWorkings)
    requires d.Fits()
    ensures GroundEffect(d, GroundStage(d, timestamp, working), TPlus(timestamp, d.boostTime), working)
  {
    hide SubmitIf, HasPassed;
    var runs := FedBothUnder(d.ground, TPlus(timestamp, d.boostTime), GROUND_VELOCITY, Speeds(Slopes(d.windows)));
    TwoReports(d.controller, HasPassed(runs.primary, GROUND_TIME) && working.primaryBarometerOk, BAROM_MS5611,
               HasPassed(runs.secondary, GROUND_TIME) && working.secondaryBarometerOk, BAROM_BMP, GROUND_HIT);
  }

  /** Who reports boost: the primary IMU is source 1, the secondary one source 0. */
  lemma BoostReports(b: Boosting, timestamp: nat, data: SensorData, working: SensorWorkings)
    requires b.controller.Fits(FLIGHT)
    ensures var b' := BoostHandled(b, timestamp, data, working);
            var before, after := b.controller.sources[0], b'.controller.sources[0];
            && (after[1] <==> before[1] || (HasPassed(b'.imu.primary, BOOST_TIME) && working.primaryAccOk))
            && (after[0] <==> before[0] || (HasPassed(b'.imu.secondary, BOOST_TIME) && working.secondaryAccOk))
  {
    hide SubmitIf, HasPassed;
    var imu := FedOver(b.imu, timestamp % WRAP, Magnitudes(data));
    TwoReports(b.controller, HasPassed(imu.primary, BOOST_TIME) && working.primaryAccOk, HIGH_G_IMU,
               HasPassed(imu.secondary, BOOST_TIME) && working.secondaryAccOk, LOW_G_IMU, BOOST);
  }

  /** Who reports noseover: the primary barometer is source 3, the secondary one source 2. */
  lemma NoseoverReports(f: Falling, slopes: Both<Option<real>>, t: nat, working: SensorWorkings)
    requires f.controller.Fits(FLIGHT)
    ensures var f' := NoseoverHandled(f, slopes, t, working);
            var before, after := f.controller.sources[2], f'.controller.sources[2];
            var unlocked := f.controller.events[1];
            && (after[3] <==>
                before[3] || (HasPassed(f'.runs.primary, NOSEOVER_TIME) && unlocked && working.primaryBarometerOk))
            && (after[2] <==>
                before[2] || (HasPassed(f'.runs.secondary, NOSEOVER_TIME) && unlocked && working.secondaryBarometerOk))
  {
    hide SubmitIf, HasPassed;
    var runs := FedBothUnder(f.runs, t, NOSEOVER_VELOCITY, slopes);
    var unlocked := f.controller.events[NOSEOVER_LOCKOUT];
    var first := HasPassed(runs.primary, NOSEOVER_TIME) && unlocked && working.primaryBarometerOk;
    SubmitIfGrows(f.controller, first, BAROM_MS5611, NOSEOVER);
    TwoReports(f.controller, first, BAROM_MS5611,
               HasPassed(runs.secondary, NOSEOVER_TIME) && unlocked && working.secondaryBarometerOk,
               BAROM_BMP, NOSEOVER);
  }

  /** And who reports the landing. */
  lemma GroundReports(f: Falling, slopes: Both<Option<real>>, t: nat, working: SensorWorkings)
    requires f.controller.Fits(FLIGHT)
    ensures var f' := GroundHandled(f, slopes, t, working);
            var before, after := f.controller.sources[3], f'.controller.sources[3];
            && (after[3] <==> before[3] || (HasPassed(f'.runs.primary, GROUND_TIME) && working.primaryBarometerOk))
            && (after[2] <==> before[2] || (HasPassed(f'.runs.secondary, GROUND_TIME) && working.secondaryBarometerOk))
  {
    hide SubmitIf, HasPassed;
    var runs := FedBothUnder(f.runs, t, GROUND_VELOCITY, Speeds(slopes));
    TwoReports(f.controller, HasPassed(runs.primary, GROUND_TIME) && working.primaryBarometerOk, BAROM_MS5611,
               HasPassed(runs.secondary, GROUND_TIME) && working.secondaryBarometerOk, BAROM_BMP, GROUND_HIT);
  }

  /** HandleData in all: which debouncers are fed with what, and when an event can come. */
  ghost predicate HandleEffect(d: Detector, e: Detector, timestamp: nat, asl: real -> real, data: SensorData,
                               working: SensorWorkings)
    requires d.Fits() && e.Fits()
  {
    && e.windows == WindowsFed(d.windows, timestamp, asl, data)
    && e.controller.started == d.controller.started +
       (if e.Has(BOOST) && !d.Has(BOOST) then [LOCKOUT, FULL_FLIGHT, SPARE] else [])
    && (e.Has(NOSEOVER_LOCKOUT) <==> d.Has(NOSEOVER_LOCKOUT))
    && BoostSummary(d, e, timestamp, data, working)
    && NoseoverSummary(d, e, timestamp, working)
    && GroundSummary(d, e, timestamp, working)
  }

  ghost predicate BoostSummary(d: Detector, e: Detector, timestamp: nat, data: SensorData, working: SensorWorkings)
    requires d.Fits() && e.Fits()
  {
    && (d.Has(BOOST) ==> e.Has(BOOST) && e.imu == d.imu && e.boostTime == d.boostTime)
    && (!d.Has(BOOST) ==>
          && e.imu == FedOver(d.imu, timestamp % WRAP, Magnitudes(data))
          && (e.Has(BOOST) <==> BoostDue(e.imu, working))
          && (!e.Has(BOOST) ==> e.boostTime == d.boostTime)
          && (e.Has(BOOST) && d.boostTime == BOOST_NOT_YET_HAPPENED ==> e.boostTime == timestamp))
  }

  predicate WatchesNoseover(d: Detector, e: Detector)
    requires d.Fits() && e.Fits()
  {
    e.Has(BOOST) && !d.Has(NOSEOVER)
  }

  ghost predicate NoseoverSummary(d: Detector, e: Detector, timestamp: nat, working: SensorWorkings)
    requires d.Fits() && e.Fits()
  {
    && (d.Has(NOSEOVER) ==> e.Has(NOSEOVER))
    && e.noseover == (if WatchesNoseover(d, e)
                      then FedBothUnder(d.noseover, TPlus(timestamp, e.boostTime), NOSEOVER_VELOCITY, Slopes(e.windows))
                      else d.noseover)
    && (!d.Has(NOSEOVER) ==>
          (e.Has(NOSEOVER) <==>
           e.Has(BOOST) && d.Has(NOSEOVER_LOCKOUT) && BaromDue(e.noseover, NOSEOVER_TIME, working)))
  }

  predicate WatchesGround(d: Detector, e: Detector)
    requires d.Fits() && e.Fits()
  {
    e.Has(BOOST) && e.Has(NOSEOVER) && !d.Has(GROUND_HIT)
  }

  ghost predicate GroundSummary(d: Detector, e: Detector, timestamp: nat, working: SensorWorkings)
    requires d.Fits() && e.Fits()
  {
    && (d.Has(GROUND_HIT) ==> e.Has(GROUND_HIT))
    && e.ground == (if WatchesGround(d, e)
                    then FedBothUnder(d.ground, TPlus(timestamp, e.boostTime), GROUND_VELOCITY,
                                      Speeds(Slopes(e.windows)))
                    else d.ground)
    && (!d.Has(GROUND_HIT) ==>
          (e.Has(GROUND_HIT) <==> WatchesGround(d, e) && BaromDue(e.ground, GROUND_TIME, working)))
    && (e.Has(GROUND_HIT) && !d.Has(GROUND_HIT) ==> BaromReported(e, GROUND_HIT))
    && (BaromReported(e, GROUND_HIT) ==> BaromReported(d, GROUND_HIT) || (e.Has(GROUND_HIT) && !d.Has(GROUND_HIT)))
    && (BaromReported(d, GROUND_HIT) ==> BaromReported(e, GROUND_HIT))
  }

  lemma DataHandledEffect(d: Detector, timestamp: nat, asl: real -> real, data: SensorData, working: SensorWorkings)
    requires d.Fits()
    ensures HandleEffect(d, DataHandled(d, timestamp, asl, data, working), timestamp, asl, data, working)
  {
    hide BoostStage, NoseoverStage, GroundStage, FedOver, FedBothUnder, TPlus, Slopes, WindowsFed, BoostDue, BaromDue;
    var w := Watched(d, timestamp, asl, data);
    var b := BoostStage(w, timestamp, data, working);
    var n := NoseoverStage(b, timestamp, working);
    BoostStageEffect(w, timestamp, data, working);
    NoseoverStageEffect(b, timestamp, working);
    GroundStageEffect(n, timestamp, working);
  }
}
