/** The constants of src/config.py that the modelled code reads. */
module Config {

  /** Number of features requested per ArcGIS page. */
  const ARCGIS_PAGE_SIZE: nat := 1000

  /** Thames Water alert-status strings and their integer codes. */
  const THAMES_STATUS_MAP: map<string, int> :=
    map["Discharging" := 1, "Not discharging" := 0, "Offline" := -1]

  /** File names of the two "latest snapshot" slots. */
  const THAMES_LATEST_FILE: string := "thames.json"
  const NSOH_LATEST_FILE: string := "nsoh.json"
}
