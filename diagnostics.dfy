/** Diagnostics the code parser reports through location.warning; the
    message texts are not modelled, only which warning it is and the values
    it quotes. */
module Diagnostics {

  datatype Warning =
    | CompatUnsupported                                   // \compat used, but Qt3 compatibility is gone
    | IgnoredCommand(command: string)                     // \title or \subtitle on a node that is not a page
    | NoBaseDirInPath(filePath: string, baseDir: string)
    | NoSubDirAfterBaseDir(filePath: string, baseDir: string)
    | NoFileNameAfterSubDir(filePath: string, rest: string)
}
