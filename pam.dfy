/** The PAM return codes the captcha engine produces, and what one challenge yields. */
module Pam {

  /** `PAM_SUCCESS`, `PAM_PERM_DENIED` and `PAM_SERVICE_ERR`. */
  datatype PamResult = PamSuccess | PamPermDenied | PamServiceErr

  /** The outcome of one challenge: its return code and the lines shown to the user. */
  datatype ChallengeRun = ChallengeRun(result: PamResult, shown: seq<string>)
}
