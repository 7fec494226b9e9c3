/** The label and indicator colour shown for a show's broadcast status. */
module Status {

  datatype StatusInfo = StatusInfo(status: string, color: string)

  /** Shown for any status string outside the table, including the empty
      string and differently-cased spellings. */
  const Default := StatusInfo("N/A", "bg-gray-400")

  const KnownStatuses := map[
    "Running" := StatusInfo("En emisión", "bg-green-500 shadow-lg shadow-green-500/50"),
    "Ended" := StatusInfo("Finalizada", "bg-gray-400"),
    "In Development" := StatusInfo("Producción", "bg-yellow-500 shadow-lg shadow-yellow-500/50"),
    "To Be Determined" := StatusInfo("TBD", "bg-blue-500 shadow-lg shadow-blue-500/50")
  ]

  /** The lookup of `useStatus`: the table entry for a known status, else
      the default. */
  function UseStatus(statusType: string): (r: StatusInfo)
    ensures statusType in KnownStatuses ==> r == KnownStatuses[statusType]
    ensures statusType !in KnownStatuses ==> r == Default
  {
    if statusType in KnownStatuses then KnownStatuses[statusType] else Default
  }

  /** The label is "N/A" exactly for the strings outside the table, and the
      grey indicator marks exactly those and "Ended". */
  lemma DefaultExactlyForUnknown(statusType: string)
    ensures UseStatus(statusType).status == "N/A" <==> statusType !in KnownStatuses
    ensures UseStatus(statusType).color == "bg-gray-400" <==>
      (statusType !in KnownStatuses || statusType == "Ended")
  {
  }

  /** The four table entries, and the case-sensitivity of the lookup. */
  lemma StatusTable()
    ensures UseStatus("Running").status == "En emisión"
    ensures UseStatus("Ended") == StatusInfo("Finalizada", "bg-gray-400")
    ensures UseStatus("In Development").status == "Producción"
    ensures UseStatus("To Be Determined").status == "TBD"
    ensures UseStatus("running") == Default && UseStatus("") == Default
  {
    assert "running" != "Running";
  }
}
