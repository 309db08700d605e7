/** What a case is called: its package, its bench target and its own name. */
module Cases {
  datatype CaseId = CaseId(krate: string, target: string, name: string)
}
