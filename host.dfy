/**
 * The outside world the core talks to, reduced to what its control flow
 * observes: an `AbortSignal` that may become aborted between any two reads,
 * an HTTP client answering each URL with a fixed response, and a file
 * system that can refuse some paths.
 */
module Host {
  import opened JsStrings

  type Bytes = seq<bv8>

  /**
   * An optional `AbortSignal`. `present` is false when the caller passed no
   * signal; otherwise `aborted` reads false until the `abortAt`-th poll and
   * true from then on, so the signal can flip between any two reads and
   * never flips back.
   */
  class Signal {
    const present: bool
    const abortAt: nat
    var polls: nat

    constructor (present: bool, abortAt: nat)
      ensures this.present == present && this.abortAt == abortAt && polls == 0
    {
      this.present := present;
      this.abortAt := abortAt;
      polls := 0;
    }

    /** Whether the signal is aborted so far, as seen by the reads made until now. */
    predicate Observed()
      reads this
    {
      present && abortAt < polls
    }

    /** `signal && signal.aborted` */
    method Aborted() returns (b: bool)
      modifies this
      ensures polls == old(polls) + 1
      ensures b == (present && old(polls) >= abortAt)
      ensures b ==> Observed()
    {
      b := present && polls >= abortAt;
      polls := polls + 1;
    }
  }

  /** What the server answers for a URL: a network failure, or a status and a body that may fail to download. */
  datatype FetchResult = NetworkError(message: string) | Response(status: int, body: Option<Bytes>)

  /** `response.ok` */
  predicate IsOk(r: FetchResult) {
    r.Response? && 200 <= r.status <= 299
  }

  /** The HTTP client: fixed answers, and the list of URLs asked for so far. */
  class Network {
    const answer: string -> FetchResult
    var requested: seq<string>

    constructor (answer: string -> FetchResult)
      ensures this.answer == answer && requested == []
    {
      this.answer := answer;
      requested := [];
    }

    method Get(url: string) returns (r: FetchResult)
      modifies this
      ensures requested == old(requested) + [url]
      ensures r == answer(url)
    {
      requested := requested + [url];
      r := answer(url);
    }
  }

  /** The errors the file system raises for a path it refuses. */
  function WriteError(path: string): string {
    "EACCES: permission denied, open '" + path + "'"
  }

  function MkdirError(path: string): string {
    "EACCES: permission denied, mkdir '" + path + "'"
  }

  /** The file system: files by path, directories, and the paths where writing or creating fails. */
  class FileSystem {
    var files: map<string, Bytes>
    var dirs: set<string>
    const failing: set<string>

    constructor (files: map<string, Bytes>, dirs: set<string>, failing: set<string>)
      ensures this.files == files && this.dirs == dirs && this.failing == failing
    {
      this.files := files;
      this.dirs := dirs;
      this.failing := failing;
    }

    /** `fs.existsSync(path)` */
    predicate Exists(path: string)
      reads this
    {
      path in files || path in dirs
    }

    /** `fs.writeFileSync` / `fs.promises.writeFile`: `None` on success, the error otherwise. */
    method WriteFile(path: string, data: Bytes) returns (err: Option<string>)
      modifies this
      ensures err.None? <==> path !in failing
      ensures err.Some? ==> err.value == WriteError(path)
      ensures files == if err.None? then old(files)[path := data] else old(files)
      ensures dirs == old(dirs)
    {
      if path in failing {
        err := Some(WriteError(path));
      } else {
        files := files[path := data];
        err := None;
      }
    }

    /** `fs.promises.mkdir(path, { recursive: true })` */
    method MakeDir(path: string) returns (err: Option<string>)
      modifies this
      ensures err.None? <==> path !in failing
      ensures err.Some? ==> err.value == MkdirError(path)
      ensures dirs == if err.None? then old(dirs) + {path} else old(dirs)
      ensures files == old(files)
    {
      if path in failing {
        err := Some(MkdirError(path));
      } else {
        dirs := dirs + {path};
        err := None;
      }
    }
  }
}
