/**
 The records LibreHardwareMonitor publishes over WMI, as the exporter and
 test_fans.py read them: `w.Sensor()` rows and `w.Hardware()` rows. The WMI
 connection and the queries themselves are left out; their results are
 inputs, and a failed query is `None`.
 */
module Wmi {
  import opened Optional

  /**
   One `Sensor` row. `value` is the WMI `Value` property, `None` when it is
   missing (Python `None`).
   */
  datatype WmiSensor = WmiSensor(sensorType: string, name: string, value: Option<real>, parent: string)

  /**
   One `Hardware` row. `hardwareType` is `None` when the `HardwareType`
   property is not a string (missing, or a number).
   */
  datatype Hardware = Hardware(hardwareType: Option<string>, name: string)

  /**
   `float(sensor.Value) if sensor.Value else 0`: a missing value, like a
   zero one, reads as 0; any other value is kept.
   */
  function Reading(s: WmiSensor): (r: real)
    ensures s.value.None? ==> r == 0.0
    ensures s.value.Some? ==> r == s.value.value
  {
    match s.value
    case None => 0.0
    case Some(v) => if v == 0.0 then 0.0 else v
  }
}
