/** The two builds of the crate: `cfg(windows)` and everything else. */
module Build {
  datatype Platform = Windows | NotWindows
}
