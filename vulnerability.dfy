/** The record every stage of the pipeline passes along: one finding from the
    scanner export, its two parsed dates, and the two fields the scorer fills
    in (zero values until then). */
module Vulnerabilities {
  import opened Calendar

  datatype Vulnerability = Vulnerability(
    uniqueId: string,
    assetName: string,
    assetId: string,
    organizationAccount: string,
    identifier: string,
    source: string,
    cvss: real,
    title: string,
    description: string,
    packageName: string,
    installedVersion: string,
    fixedVersion: string,
    remediation: string,
    severity: string,
    dueDate: CalendarDate,
    firstDetectedDate: CalendarDate,
    fixability: string,
    priorityScore: real,
    recommendedActionTimeframe: string)
}
