/** pkg/utils: sizes are powers of 1024. */
module Units {
  const KB: nat := 1024
  const MB: nat := 1024 * 1024
  const GB: nat := 1024 * 1024 * 1024
  const TB: nat := 1024 * 1024 * 1024 * 1024
}
