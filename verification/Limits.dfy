/** Limits that several files of the filesystem adapter share. */
module Limits {
  // atomic_commit.rs
  const MAX_ATOMIC_TEXT_BYTES: nat := 64 * 1024

  // query.rs
  const MAX_DIRECTORY_SCAN_ENTRIES: nat := 4096
  const MAX_SEARCH_QUERY_BYTES: nat := 256
  const MAX_SEARCH_QUERY_UNICODE_SCALARS: nat := 64
  const MAX_SEARCH_MATCHES: nat := 128
  const MAX_SEARCH_PREVIEW_BYTES: nat := 512
}
