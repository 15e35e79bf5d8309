// Return codes: the errno values behind the VACCEL_* names (Linux numbering).
// Code that passes an errno or a callee's code through can return any other int.
module Codes {
  const OK := 0
  const EPERM := 1
  const ENOENT := 2
  const ENOMEM := 12
  const EBUSY := 16
  const EEXISTS := 17
  const EINVAL := 22
  const ENAMETOOLONG := 36
  const EBACKEND := 71
  const EUSERS := 87
  const ESESS := 104

  lemma FailuresAreNotOK()
    ensures OK !in {EPERM, ENOENT, ENOMEM, EBUSY, EEXISTS, EINVAL, ENAMETOOLONG, EBACKEND, EUSERS, ESESS}
  {
  }
}
