// The error codes the service-discovery operations return (src/sd/sd_err.h).
// Success is 0; every error is negative.
module SdErr {
  const OK: int := 0
  const PERM_DENIED: int := -1
  const CLIENT_ALREADY_EXISTS: int := -2
  const NO_SUCH_CLIENT: int := -3
  const NO_SUCH_SERVICE: int := -4
  const SERVICE_SAME_GENERATION_BUT_DIFFERENT_DATA: int := -5
  const NEWER_SERVICE_GENERATION_EXISTS: int := -6
  const SUB_ALREADY_EXISTS: int := -7
  const INVALID_FILTER: int := -8
  const NO_SUCH_SUB: int := -9
}
