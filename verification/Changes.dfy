// One entry of the change list between two trees.
module Changes {
  import opened Outcomes

  datatype ChangeKind = Added | Modified | Deleted | Renamed | Copied
  datatype Change = Change(kind: ChangeKind, path: string, previousPath: Option<string>)
}
