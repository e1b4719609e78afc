// The statuses of a report (src/modules/reports/types/report.type.ts).
module ReportTypes {
  datatype ReportStatus =
    | Pending | Resolving | Resolved | Dismissed | AppealPending | AppealRejected | AppealSuccess
}
