/** The fixed names and texts dazzlesum writes and recognises. */
module Constants {

  const Version: string := "1.3.4_54-20250629-4fe10b95"
  const DefaultAlgorithm: string := "sha256"

  /** The per-directory digest file. */
  const ShasumFilename: string := ".shasum"
  /** The reserved state file name, never checksummed. */
  const StateFilename: string := ".dazzle-state.json"
  /** Stem of the default tree-wide digest file, `checksums.<algorithm>`. */
  const MonolithicDefaultName: string := "checksums"

  /** The end marker both digest formats finish with, without and with its newline. */
  const FooterLine: string := "# End of checksums"
  const Footer: string := FooterLine + "\n"
}
