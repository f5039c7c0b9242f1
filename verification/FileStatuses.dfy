module FileStatuses {
  datatype FileStatus = Pending | Uploading | Assembling | Completed | Failed
}
