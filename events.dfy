/** The two channels between the window and the browser worker: the commands
    the window puts on `command_queue` and the events the worker puts on
    `result_queue`. */
module Events {
  import opened Dates

  /** A `(command, data)` pair taken from the command queue. */
  datatype Command =
    | OpenLoginPage
    | VerifyLogin
    | RunUan(uans: seq<string>, outputFile: string)
    | RunEcr(startMonth: Date, endMonth: Date)
    | RunMsd(uans: seq<string>)
    | Shutdown
      /** A tag the worker has no branch for. */
    | Other(tag: string)

  /** A `(result_type, data)` pair put on the result queue. */
  datatype Event =
    | StatusUpdate(message: string)
    | Error(message: string)
    | Info(message: string)
    | BrowserOpened
    | LoginVerified(loggedIn: bool)

  /** A file the extractor writes: its directory and its name. Archives store
      the name only (`zf.write(f, f.name)`). */
  datatype FilePath = FilePath(dir: string, name: string)

  /** `str(f)` for a path `Path(dir) / name`. */
  function PathText(f: FilePath): string {
    f.dir + "/" + f.name
  }
}
