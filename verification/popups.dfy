/**
 * The popup catalogue: a fixed table from popup type to title and body,
 * with a fallback for every other type.
 */
module Popups {
  /** A popup body. The three catalogue bodies are static markup, named here by what they show. */
  datatype Body = DiagnosticReport | MemoryViewer | SettingsForm | Text(text: string)

  datatype PopupContent = PopupContent(title: string, body: Body)

  /** The catalogue's own entries. */
  const Catalogue: map<string, PopupContent> := map[
    "diagnostics" := PopupContent("DIAGNOSTIC_TOOL.exe", DiagnosticReport),
    "memory" := PopupContent("MEMORY_VIEWER.exe", MemoryViewer),
    "settings" := PopupContent("BIOS_SETTINGS.exe", SettingsForm)
  ]

  /** What any type outside the catalogue gets. */
  const Fallback: PopupContent := PopupContent("ERROR", Text("Unknown popup type"))

  /**
   * `getPopupContent(type)`: the catalogue entry, or the fallback. It is
   * total: no type makes it fail.
   */
  function GetPopupContent(popupType: string): (r: PopupContent)
    ensures popupType == "diagnostics" ==> r.title == "DIAGNOSTIC_TOOL.exe"
    ensures popupType == "memory" ==> r.title == "MEMORY_VIEWER.exe"
    ensures popupType == "settings" ==> r.title == "BIOS_SETTINGS.exe"
    ensures r.title == "ERROR" <==> popupType !in {"diagnostics", "memory", "settings"}
    ensures r.title == "ERROR" ==> r.body == Text("Unknown popup type")
  {
    if popupType in Catalogue then Catalogue[popupType] else Fallback
  }

  /** Different catalogue types never show the same popup. */
  lemma CatalogueDistinct(a: string, b: string)
    requires a in Catalogue && b in Catalogue && a != b
    ensures GetPopupContent(a) != GetPopupContent(b)
  {
  }
}
