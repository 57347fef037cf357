/** The provider's decoded payloads (rook/models.go), restricted to the fields
    the pipeline reads. */
module Models {

  /** A float64 carried through without arithmetic: its IEEE-754 bit pattern. */
  datatype F64 = F64(bits: bv64)

  /** One granular sample: its `datetime_string` and its value. */
  datatype Sample<V> = Sample(dateTime: string, value: V)

  /** blood_glucose_mg_per_dL_int */
  type GlucoseSample = Sample<int>
  /** hr_bpm_int */
  type HeartRateSample = Sample<int>
  /** hrv_rmssd_float */
  type HrvRmssdSample = Sample<F64>
  /** hrv_sdnn_float */
  type HrvSdnnSample = Sample<F64>

  /** physical_health.summary.physical_summary.distance.steps_int */
  datatype StepsResponse = StepsResponse(steps: int)

  /** blood_glucose.blood_glucose_granular_data_array of one event */
  datatype GlucoseEvent = GlucoseEvent(samples: seq<GlucoseSample>)

  /** body_health.events.blood_glucose_event */
  datatype GlucoseResponse = GlucoseResponse(bloodGlucoseEvents: seq<GlucoseEvent>)

  /** The three granular arrays of one heart-rate event. */
  datatype HeartRateData = HeartRateData(
    bpmSamples: seq<HeartRateSample>,
    hrvRmssdSamples: seq<HrvRmssdSample>,
    hrvSdnnSamples: seq<HrvSdnnSample>)

  datatype HeartRateEvent = HeartRateEvent(heartRate: HeartRateData)

  /** physical_health.events.heart_rate_event */
  datatype HeartRateResponse = HeartRateResponse(heartRateEvents: seq<HeartRateEvent>)
}
