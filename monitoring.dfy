/** `rt_file_monitoring`: the event handler that forwards filesystem events for
    tracked files to the desktop notifier, and the set of directories to watch. */
module Monitoring {
  import opened Paths

  /** A watchdog event: the path it happened to and, for a move, where it went. */
  datatype FileSystemEvent = FileSystemEvent(srcPath: Path, destPath: Path)

  /** One call of `show_notification(title, message)`. */
  datatype Notification = Notification(title: string, message: string)

  /** `FileChangeHandler`: the absolute paths it reports on. */
  datatype FileChangeHandler = FileChangeHandler(filesToMonitor: set<Path>)

  /** The image of `files` under `f`. */
  function Image(f: Path -> Path, files: set<Path>): (r: set<Path>)
    ensures forall x :: x in files ==> f(x) in r
    ensures forall y :: y in r ==> exists x :: x in files && f(x) == y
  {
    set x | x in files :: f(x)
  }

  /** `FileChangeHandler.__init__`: tracks `os.path.abspath` of every given path. */
  function NewFileChangeHandler(abspath: Path -> Path, files: set<Path>): FileChangeHandler
  {
    FileChangeHandler(Image(abspath, files))
  }

  /** The body shared by the four `on_*` handlers: one notification when the event's
      source path is tracked, none otherwise. */
  function Forward(h: FileChangeHandler, e: FileSystemEvent, title: string, suffix: string): (sent: seq<Notification>)
    ensures |sent| == (if e.srcPath in h.filesToMonitor then 1 else 0)
    ensures forall n :: n in sent ==> n.title == title && n.message == e.srcPath + suffix
  {
    if e.srcPath in h.filesToMonitor then [Notification(title, e.srcPath + suffix)] else []
  }

  function OnModified(h: FileChangeHandler, e: FileSystemEvent): seq<Notification>
  {
    Forward(h, e, "File Modified", " was modified.")
  }

  function OnCreated(h: FileChangeHandler, e: FileSystemEvent): seq<Notification>
  {
    Forward(h, e, "File Created", " was created.")
  }

  function OnDeleted(h: FileChangeHandler, e: FileSystemEvent): seq<Notification>
  {
    Forward(h, e, "File Deleted", " was deleted.")
  }

  /** Decides by the source path; the message does not name the destination. */
  function OnMoved(h: FileChangeHandler, e: FileSystemEvent): seq<Notification>
  {
    Forward(h, e, "File Moved", " was moved or renamed.")
  }

  /** An event on `abspath(f)` for a given path `f` produces exactly one notification
      from each handler, with that handler's title; an event on any path no given path
      resolves to produces none. */
  lemma HandlersForwardTrackedOnly(abspath: Path -> Path, files: set<Path>, e: FileSystemEvent)
    ensures var h := NewFileChangeHandler(abspath, files);
      (e.srcPath in h.filesToMonitor <==> exists f :: f in files && abspath(f) == e.srcPath)
    ensures var h := NewFileChangeHandler(abspath, files);
      (exists f :: f in files && abspath(f) == e.srcPath) ==>
        && OnModified(h, e) == [Notification("File Modified", e.srcPath + " was modified.")]
        && OnCreated(h, e) == [Notification("File Created", e.srcPath + " was created.")]
        && OnDeleted(h, e) == [Notification("File Deleted", e.srcPath + " was deleted.")]
        && OnMoved(h, e) == [Notification("File Moved", e.srcPath + " was moved or renamed.")]
    ensures var h := NewFileChangeHandler(abspath, files);
      !(exists f :: f in files && abspath(f) == e.srcPath) ==>
        OnModified(h, e) == [] && OnCreated(h, e) == [] && OnDeleted(h, e) == [] && OnMoved(h, e) == []
  {
  }

  /** A move from an untracked path onto a tracked one is not reported, and a move off a
      tracked path is reported whatever its destination. */
  lemma MoveDecidedBySource(h: FileChangeHandler, src: Path, dest: Path, other: Path)
    ensures src !in h.filesToMonitor ==> OnMoved(h, FileSystemEvent(src, dest)) == []
    ensures src in h.filesToMonitor ==>
      OnMoved(h, FileSystemEvent(src, dest)) == OnMoved(h, FileSystemEvent(src, other))
      && |OnMoved(h, FileSystemEvent(src, dest))| == 1
  {
  }

  /** What `monitor_files` sets up before it starts the observer: the paths it warns
      about, the handler, and the directories it schedules. */
  datatype MonitorPlan = MonitorPlan(warnings: set<Path>, handler: FileChangeHandler, parentDirectories: set<Path>)

  /** `monitor_files(files_to_monitor)` up to `observer.start()`. */
  function MonitorFiles(isFile: Path -> bool, abspath: Path -> Path, dirname: Path -> Path,
                        filesToMonitor: set<Path>): MonitorPlan
  {
    MonitorPlan(
      (set f | f in filesToMonitor && !isFile(f)),
      NewFileChangeHandler(abspath, filesToMonitor),
      (set f | f in filesToMonitor :: dirname(abspath(f))))
  }

  /** Every tracked absolute path has its parent directory scheduled, and every scheduled
      directory is the parent of a tracked path. */
  lemma WatchedDirectoriesCoverTracked(isFile: Path -> bool, abspath: Path -> Path, dirname: Path -> Path,
                                       files: set<Path>)
    ensures var plan := MonitorFiles(isFile, abspath, dirname, files);
      && (forall t :: t in plan.handler.filesToMonitor ==> dirname(t) in plan.parentDirectories)
      && (forall d :: d in plan.parentDirectories ==>
            exists t :: t in plan.handler.filesToMonitor && dirname(t) == d)
  {
    var plan := MonitorFiles(isFile, abspath, dirname, files);
    forall d | d in plan.parentDirectories
      ensures exists t :: t in plan.handler.filesToMonitor && dirname(t) == d
    {
      var f :| f in files && dirname(abspath(f)) == d;
      assert abspath(f) in plan.handler.filesToMonitor;
    }
  }

  /** A given path that is not a file is warned about and still tracked, and its parent
      directory is still scheduled. */
  lemma MissingFileStillMonitored(isFile: Path -> bool, abspath: Path -> Path, dirname: Path -> Path,
                                  files: set<Path>, f: Path)
    requires f in files && !isFile(f)
    ensures var plan := MonitorFiles(isFile, abspath, dirname, files);
      f in plan.warnings && abspath(f) in plan.handler.filesToMonitor
      && dirname(abspath(f)) in plan.parentDirectories
  {
  }

  lemma {:induction false} ImageSize(f: Path -> Path, s: set<Path>)
    ensures |Image(f, s)| <= |s|
    decreases |s|
  {
    if s != {} {
      var x :| x in s;
      ImageSize(f, s - {x});
      assert Image(f, s) <= Image(f, s - {x}) + {f(x)};
      SubsetSize(Image(f, s), Image(f, s - {x}) + {f(x)});
    }
  }

  /** Two elements with one image make the image smaller than the set. */
  lemma ImageShrinks(f: Path -> Path, s: set<Path>, x: Path, y: Path)
    requires x in s && y in s && x != y && f(x) == f(y)
    ensures |Image(f, s)| < |s|
  {
    assert Image(f, s) <= Image(f, s - {y});
    SubsetSize(Image(f, s), Image(f, s - {y}));
    ImageSize(f, s - {y});
  }

  lemma SubsetSize(a: set<Path>, b: set<Path>)
    requires a <= b
    ensures |a| <= |b|
  {
    assert b == a + (b - a);
  }

  /** The scheduled directories are the image of the given paths under
      `dirname(abspath(.))`. */
  lemma ParentsAreImage(isFile: Path -> bool, abspath: Path -> Path, dirname: Path -> Path, files: set<Path>)
    ensures MonitorFiles(isFile, abspath, dirname, files).parentDirectories == Image(x => dirname(abspath(x)), files)
  {
    var parent := (x: Path) => dirname(abspath(x));
    var dirs := MonitorFiles(isFile, abspath, dirname, files).parentDirectories;
    forall d | d in Image(parent, files) ensures d in dirs {
      var x :| x in files && parent(x) == d;
    }
  }

  /** Directories are a set, so each is scheduled once: there are never more than the
      given paths, and strictly fewer when two given paths share a parent. */
  lemma SharedParentsScheduledOnce(isFile: Path -> bool, abspath: Path -> Path, dirname: Path -> Path,
                                   files: set<Path>, f: Path, g: Path)
    ensures var plan := MonitorFiles(isFile, abspath, dirname, files);
      |plan.parentDirectories| <= |files|
      && (f in files && g in files && f != g && dirname(abspath(f)) == dirname(abspath(g)) ==>
            |plan.parentDirectories| < |files|)
  {
    var parent := (x: Path) => dirname(abspath(x));
    ParentsAreImage(isFile, abspath, dirname, files);
    ImageSize(parent, files);
    if f in files && g in files && f != g && parent(f) == parent(g) {
      ImageShrinks(parent, files, f, g);
    }
  }
}
