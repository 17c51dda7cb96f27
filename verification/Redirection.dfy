/**
  Output redirection: the console of `nsh_console.c` and the paths of `nsh_execute` that open
  a redirection file, for a build without an alternate console device.
*/
module Redirection {

  const STDOUT_FD: int := 1
  const STDERR_FD: int := 2

  datatype Stream = NoStream | Stdout | Stderr | On(fd: int)

  /** The descriptor under an open stream. */
  function FdOf(s: Stream): int
    requires s != NoStream
  {
    match s
    case Stdout => STDOUT_FD
    case Stderr => STDERR_FD
    case On(fd) => fd
  }

  /** The four output fields of a console. */
  datatype Output = Output(errfd: int, outfd: int, errstream: Stream, outstream: Stream)

  /** The file descriptors that have been handed out and closed, in order. */
  class Kernel {
    var issued: seq<int>
    var closed: seq<int>

    /** `open`, which returns `fd`. */
    method Open(fd: int)
      modifies this`issued
      ensures issued == old(issued) + if fd >= 0 then [fd] else []
    {
      if fd >= 0 {
        issued := issued + [fd];
      }
    }

    method Close(fd: int)
      modifies this`closed
      ensures closed == old(closed) + [fd]
    {
      closed := closed + [fd];
    }
  }

  class Console {
    var errfd: int
    var outfd: int
    var errstream: Stream
    var outstream: Stream
    var redirect: bool

    ghost function Fields(): Output
      reads this
    {
      Output(errfd, outfd, errstream, outstream)
    }

    /** `nsh_newconsole`. */
    constructor ()
      ensures Fields() == Output(2, 1, Stderr, Stdout) && !redirect
    {
      errfd, outfd, errstream, outstream, redirect := STDERR_FD, STDOUT_FD, Stderr, Stdout, false;
    }

    /** `nsh_openifnotopen`. */
    method OpenIfNotOpen(fdopens: bool) returns (ok: bool)
      modifies this`errfd, this`errstream, this`outstream
      ensures ok <==> outstream != NoStream
      ensures old(outstream) != NoStream || !fdopens ==> Fields() == old(Fields())
      ensures old(outstream) == NoStream && fdopens ==> Fields() == Output(outfd, outfd, On(outfd), On(outfd))
    {
      if outstream == NoStream {
        if !fdopens {
          return false;
        }
        outstream := On(outfd);
        errfd, errstream := outfd, outstream;
      }
      return true;
    }

    /** `nsh_closeifnotclosed`. */
    method CloseIfNotClosed(kernel: Kernel)
      modifies this`errfd, this`outfd, this`errstream, this`outstream, kernel`closed
      ensures old(outstream) == Stdout ==>
        Fields() == old(Fields()).(outfd := STDOUT_FD) && kernel.closed == old(kernel.closed)
      ensures old(outstream) != Stdout ==> Fields() == Output(-1, -1, NoStream, NoStream)
      ensures old(outstream) != Stdout && old(outstream) != NoStream ==>
        kernel.closed == old(kernel.closed) + [FdOf(old(outstream))]
      ensures old(outstream) == NoStream ==>
        kernel.closed == old(kernel.closed) + if old(outfd) >= 0 && old(outfd) != STDOUT_FD then [old(outfd)] else []
    {
      if outstream == Stdout {
        outfd := STDOUT_FD;
      } else {
        if outstream != NoStream {
          kernel.Close(FdOf(outstream));
        } else if outfd >= 0 && outfd != STDOUT_FD {
          kernel.Close(outfd);
        }
        errfd, outfd, errstream, outstream := -1, -1, NoStream, NoStream;
      }
    }

    /** `nsh_consoleredirect`: the old fields are what the caller saves. */
    method Redirect(fd: int) returns (save: Output)
      modifies this`outfd, this`outstream
      ensures save == old(Fields()) && Fields() == old(Fields()).(outfd := fd, outstream := NoStream)
    {
      save := Output(errfd, outfd, errstream, outstream);
      outfd, outstream := fd, NoStream;
    }

    /** `nsh_consoleundirect`. */
    method Undirect(save: Output, kernel: Kernel)
      requires OutputTo(outfd)
      modifies this`errfd, this`outfd, this`errstream, this`outstream, kernel`closed
      ensures Fields() == save && kernel.closed == old(kernel.closed) + Shut(old(outfd), old(outstream) != NoStream)
    {
      CloseIfNotClosed(kernel);
      errfd, outfd, errstream, outstream := save.errfd, save.outfd, save.errstream, save.outstream;
    }

    /** The end of a foreground command: what counts is np_redirect as the handler left it. */
    method UndirectIfSet(save: Output, kernel: Kernel)
      requires OutputTo(outfd)
      modifies this`errfd, this`outfd, this`errstream, this`outstream, kernel`closed
      ensures redirect ==>
        Fields() == save && kernel.closed == old(kernel.closed) + Shut(old(outfd), old(outstream) != NoStream)
      ensures !redirect ==> Fields() == old(Fields()) && kernel.closed == old(kernel.closed)
    {
      if redirect {
        Undirect(save, kernel);
      }
    }

    /** Output goes to `fd`, whether or not its stream has been opened yet. */
    ghost predicate OutputTo(fd: int)
      reads this
    {
      outfd == fd && fd >= 0 && (outstream == NoStream || outstream == On(fd))
    }

    /** Messages, one after the other: the stream is opened with the first for which `fdopen` succeeds. */
    method Say(fdopens: seq<bool>)
      modifies this`errfd, this`errstream, this`outstream
      ensures Fields() == Told(old(Fields()), fdopens)
    {
      for i := 0 to |fdopens|
        invariant Fields() == Told(old(Fields()), fdopens[..i])
      {
        assert fdopens[..i + 1] == fdopens[..i] + [fdopens[i]];
        var _ := OpenIfNotOpen(fdopens[i]);
      }
      assert fdopens[..|fdopens|] == fdopens;
    }

    /** A command handler: it writes some output and leaves np_redirect at some value. */
    method Handle(fdopens: seq<bool>, flagAfter: bool)
      modifies this`errfd, this`errstream, this`outstream, this`redirect
      ensures redirect == flagAfter && Fields() == Told(old(Fields()), fdopens)
    {
      Say(fdopens);
      redirect := flagAfter;
    }
  }

  /** The output fields after some messages: once the stream is open they stay, and error output follows. */
  function Told(o: Output, fdopens: seq<bool>): (r: Output)
    ensures r == o <==> o.outstream != NoStream || true !in fdopens
  {
    if o.outstream == NoStream && true in fdopens then Output(o.outfd, o.outfd, On(o.outfd), On(o.outfd)) else o
  }

  lemma ToldTwice(o: Output, first: seq<bool>, second: seq<bool>)
    ensures Told(Told(o, first), second) == Told(o, first + second)
  {
  }

  /** What closing a console that writes to `fd` closes: an unopened descriptor 1 is taken for standard output. */
  function Shut(fd: int, open: bool): (fds: seq<int>) {
    if open || fd != STDOUT_FD then [fd] else []
  }

  /**
    How everything outside `nsh_execute` behaves: the results of the calls it makes.  `apps` and
    `fdopen` are for messages on the console itself: those about applications, and the one about
    a file, priority or thread that is refused or a thread that is started.  `fd` is what `open`
    returns; `fdopens` is for the output of the handler and `flagAfter` is np_redirect of its
    console when it returns.
  */
  datatype Env = Env(
    builtin: int, fileapp: int, apps: seq<bool>, fd: int, background: bool,
    clones: bool, clonesArgs: bool, schedules: bool, spawns: bool, fdopen: bool,
    fdopens: seq<bool>, ret: int, flagAfter: bool)
  {
    /** The command is not an application. */
    predicate Own() {
      builtin < 0 && fileapp < 0
    }

    /** The command gets as far as opening the redirection file. */
    predicate Opens() {
      Own() && fd >= 0
    }

    predicate RunsHandler() {
      !background || (clones && clonesArgs && schedules && spawns)
    }

    /** The messages on the console itself. */
    function Messages(): (ms: seq<bool>) {
      apps + if Own() && (fd < 0 || (background && clones && clonesArgs)) then [fdopen] else []
    }

    /** The descriptors that the command closes, in order. */
    function Closes(): (fds: seq<int>) {
      if !Opens() then []
      else if !background then (if flagAfter then Shut(fd, true in fdopens) else [])
      else if !clones || !clonesArgs then [fd]
      else if !schedules || !spawns then Shut(fd, false)
      else (if flagAfter then [fd] else []) + Shut(fd, true in fdopens)
    }

    /** The console is not left with the redirection file. */
    predicate Returns() {
      Opens() && !background ==> flagAfter
    }

    /** The cases in which the file is closed once. */
    predicate ClosesOnce() {
      var shuts := fd != STDOUT_FD || true in fdopens;
      if !background then flagAfter && shuts
      else if !clones || !clonesArgs then true
      else if !schedules || !spawns then fd != STDOUT_FD
      else flagAfter != shuts
    }
  }

  lemma ClosesOnceExactly(env: Env)
    requires env.Opens()
    ensures env.Closes() == [env.fd] <==> env.ClosesOnce()
  {
    assert |[env.fd] + [env.fd]| == 2;
  }

  /**
    A file other than descriptor 1 is closed unless the handler of a foreground command turns
    np_redirect off; it is closed twice by a thread whose handler leaves np_redirect on.
  */
  lemma ClosedFile(env: Env)
    requires env.builtin < 0 && env.fileapp < 0 && env.fd >= 0 && env.fd != 1
    ensures env.fd in env.Closes() <==> env.background || env.flagAfter
    ensures |env.Closes()| <= 2 && forall fd <- env.Closes() :: fd == env.fd
    ensures |env.Closes()| == 2 <==>
      env.background && env.clones && env.clonesArgs && env.schedules && env.spawns && env.flagAfter
    ensures env.Returns() <==> env.background || env.flagAfter
  {
  }

  /** A command that opens no file closes none; and when the console says no more than applications made it say. */
  lemma Unopened(env: Env)
    ensures env.builtin >= 0 || env.fileapp >= 0 || env.fd < 0 ==> env.Closes() == [] && env.Returns()
    ensures env.Messages() == env.apps <==>
      || env.builtin >= 0 || env.fileapp >= 0
      || (env.fd >= 0 && !(env.background && env.clones && env.clonesArgs))
  {
    assert env.Messages() != env.apps ==> |env.Messages()| == |env.apps| + 1;
  }

  /**
    `nsh_execute` for a redirected command: the descriptors closed on every path, and the four
    fields of the console.  A file that was opened is closed exactly once and the fields are as
    before if and only if the command closes once, and the stream of the console was open or no
    message opens it.
  */
  method Execute(vtbl: Console, kernel: Kernel, env: Env) returns (failed: bool)
    requires vtbl.redirect
    modifies vtbl, kernel
    ensures kernel.closed == old(kernel.closed) + env.Closes()
    ensures kernel.issued == old(kernel.issued) +
      if env.builtin < 0 && env.fileapp < 0 && env.fd >= 0 then [env.fd] else []
    ensures env.Returns() ==> vtbl.Fields() == Told(old(vtbl.Fields()), env.Messages()) && vtbl.redirect
    ensures !env.Returns() ==> vtbl.OutputTo(env.fd) && !vtbl.redirect
    ensures env.Opens() ==>
      ((kernel.closed == old(kernel.closed) + [env.fd] && vtbl.Fields() == old(vtbl.Fields())) <==>
       env.ClosesOnce() && (old(vtbl.outstream) != NoStream || true !in env.Messages()))
    ensures failed <==>
      if env.builtin >= 0 then env.builtin != 0
      else if env.fileapp >= 0 then env.fileapp != 0
      else env.fd < 0 || (env.background && !(env.clones && env.clonesArgs && env.schedules && env.spawns)) ||
           (!env.background && env.ret < 0)
  {
    vtbl.Say(env.apps);
    ToldTwice(old(vtbl.Fields()), env.apps, [env.fdopen]);
    assert env.apps + [] == env.apps;
    if env.builtin >= 0 {
      return env.builtin != 0;
    }
    if env.fileapp >= 0 {
      return env.fileapp != 0;
    }
    var fd := env.fd;
    kernel.Open(fd);
    if fd < 0 {
      vtbl.Say([env.fdopen]);
      return true;
    }
    if env.background {
      failed := Spawn(vtbl, kernel, env);
    } else {
      var save := vtbl.Redirect(fd);
      vtbl.Handle(env.fdopens, env.flagAfter);
      vtbl.UndirectIfSet(save, kernel);
      failed := env.ret < 0;
    }
    ClosesOnceExactly(env);
    SameEnd(old(kernel.closed), env.Closes(), [fd]);
  }

  lemma SameEnd(a: seq<int>, b: seq<int>, c: seq<int>)
    ensures a + b == a + c <==> b == c
  {
    if a + b == a + c {
      assert b == (a + b)[|a|..] == (a + c)[|a|..] == c;
    }
  }

  /** The background branch, up to the end of the child thread. */
  method Spawn(vtbl: Console, kernel: Kernel, env: Env) returns (failed: bool)
    requires env.Opens() && env.background
    modifies vtbl`errfd, vtbl`errstream, vtbl`outstream, kernel`closed
    ensures kernel.closed == old(kernel.closed) + env.Closes()
    ensures vtbl.Fields() == Told(old(vtbl.Fields()), if env.clones && env.clonesArgs then [env.fdopen] else [])
    ensures failed <==> !env.RunsHandler()
  {
    var fd := env.fd;
    if !env.clones {
      kernel.Close(fd);
      return true;
    }
    var clone := new Console();
    if !env.clonesArgs {
      clone.CloseIfNotClosed(kernel);
      kernel.Close(fd);
      return true;
    }
    var _ := clone.Redirect(fd);
    vtbl.Say([env.fdopen]);
    if !env.schedules || !env.spawns {
      ReleaseArgs(clone, fd, kernel);
      return true;
    }
    clone.Handle(env.fdopens, env.flagAfter);
    ReleaseArgs(clone, fd, kernel);
    return false;
  }

  /** `nsh_releaseargs` with `nsh_consolerelease`. */
  method ReleaseArgs(clone: Console, fd: int, kernel: Kernel)
    requires clone.OutputTo(fd)
    modifies clone, kernel`closed
    ensures kernel.closed ==
      old(kernel.closed) + (if old(clone.redirect) then [fd] else []) + Shut(fd, old(clone.outstream) != NoStream)
  {
    if clone.redirect {
      kernel.Close(fd);
    }
    clone.CloseIfNotClosed(kernel);
  }

  /**
    A handler that runs another command on its own console, as a script does: the parser
    begins every command with np_redirect off and puts back what it then found.
  */
  method NestedCommand(vtbl: Console, kernel: Kernel, env: Env, redirected: bool)
    modifies vtbl, kernel
    ensures !vtbl.redirect
    ensures !redirected ==>
      kernel.closed == old(kernel.closed) && vtbl.Fields() == Told(old(vtbl.Fields()), env.fdopens)
    ensures redirected ==> kernel.closed == old(kernel.closed) + env.Closes()
    ensures redirected && env.Returns() ==> vtbl.Fields() == Told(old(vtbl.Fields()), env.Messages())
  {
    vtbl.redirect := false;
    if redirected {
      var saved := vtbl.redirect;
      vtbl.redirect := true;
      var _ := Execute(vtbl, kernel, env);
      vtbl.redirect := saved;
    } else {
      vtbl.Handle(env.fdopens, false);
    }
  }

  /**
    A command that runs such a handler, redirected in the foreground: the file is never closed and
    output stays with it.
  */
  method NestedForeground(vtbl: Console, kernel: Kernel, fd: int, inner: Env)
    requires vtbl.redirect && fd >= 0
    modifies vtbl, kernel
    ensures kernel.closed == old(kernel.closed) && vtbl.OutputTo(fd) && !vtbl.redirect
  {
    var save := vtbl.Redirect(fd);
    NestedCommand(vtbl, kernel, inner, false);
    vtbl.UndirectIfSet(save, kernel);
  }

  /**
    The same in the background: the clone starts with np_redirect off, so the file is closed once
    if `Shut` closes it.
  */
  method NestedBackground(kernel: Kernel, fd: int, inner: Env)
    requires fd >= 0
    modifies kernel
    ensures kernel.closed == old(kernel.closed) + Shut(fd, true in inner.fdopens)
  {
    var clone := new Console();
    var _ := clone.Redirect(fd);
    NestedCommand(clone, kernel, inner, false);
    ReleaseArgs(clone, fd, kernel);
  }

  /**
    A redirected script, which has written nothing yet, starts a redirected command in the
    background: the message about it opens the stream of the script's console, so the command
    does not leave the console as it found it, although it closes its own file.
  */
  method NestedSpawn(vtbl: Console, kernel: Kernel, fd: int, inner: Env) returns (before: Output)
    requires inner.Opens() && inner.background && inner.RunsHandler() && inner.fdopen
    modifies vtbl, kernel
    ensures before == old(vtbl.Fields()).(outfd := fd, outstream := NoStream)
    ensures vtbl.Fields() == Output(fd, fd, On(fd), On(fd)) != before
    ensures kernel.closed == old(kernel.closed) + inner.Closes()
  {
    var _ := vtbl.Redirect(fd);
    before := Output(vtbl.errfd, vtbl.outfd, vtbl.errstream, vtbl.outstream);
    assert inner.Messages()[|inner.apps|];
    NestedCommand(vtbl, kernel, inner, true);
  }

  /** The files that a run of commands opens. */
  function OpenedBy(envs: seq<Env>): (fds: seq<int>) {
    if envs == [] then []
    else OpenedBy(envs[..|envs| - 1]) + if envs[|envs| - 1].Opens() then [envs[|envs| - 1].fd] else []
  }

  /** The messages on the console itself in a run of commands. */
  function MessagesOf(envs: seq<Env>): (ms: seq<bool>) {
    if envs == [] then [] else MessagesOf(envs[..|envs| - 1]) + envs[|envs| - 1].Messages()
  }

  lemma RunOfNone()
    ensures OpenedBy([]) == [] && MessagesOf([]) == [] && forall o :: Told(o, []) == o
  {
  }

  lemma RunGrows(envs: seq<Env>, i: nat)
    requires i < |envs| && (envs[i].Opens() ==> envs[i].ClosesOnce())
    ensures OpenedBy(envs[..i + 1]) == OpenedBy(envs[..i]) + envs[i].Closes() && envs[i].Returns()
    ensures OpenedBy(envs[..i + 1]) == OpenedBy(envs[..i]) + if envs[i].Opens() then [envs[i].fd] else []
    ensures MessagesOf(envs[..i + 1]) == MessagesOf(envs[..i]) + envs[i].Messages()
  {
    assert envs[..i + 1][..i] == envs[..i];
    if envs[i].Opens() {
      ClosesOnceExactly(envs[i]);
    }
  }

  /**
    A run of redirected commands that each close their file once closes every file it opens,
    once, and nothing else, and leaves the console as its messages do: as before if and only if
    its stream was open or no message opens it.
  */
  method ExecuteAll(vtbl: Console, kernel: Kernel, envs: seq<Env>)
    requires vtbl.redirect && forall i :: 0 <= i < |envs| && envs[i].Opens() ==> envs[i].ClosesOnce()
    modifies vtbl, kernel
    ensures vtbl.redirect && kernel.closed == old(kernel.closed) + OpenedBy(envs)
    ensures kernel.issued == old(kernel.issued) + OpenedBy(envs)
    ensures vtbl.Fields() == Told(old(vtbl.Fields()), MessagesOf(envs))
    ensures vtbl.Fields() == old(vtbl.Fields()) <==> old(vtbl.outstream) != NoStream || true !in MessagesOf(envs)
  {
    hide MessagesOf; hide OpenedBy; hide Told;
    RunOfNone();
    assert envs[..0] == [];
    for i := 0 to |envs|
      invariant vtbl.redirect && vtbl.Fields() == Told(old(vtbl.Fields()), MessagesOf(envs[..i]))
      invariant kernel.closed == old(kernel.closed) + OpenedBy(envs[..i])
      invariant kernel.issued == old(kernel.issued) + OpenedBy(envs[..i])
    {
      RunGrows(envs, i);
      ToldTwice(old(vtbl.Fields()), MessagesOf(envs[..i]), envs[i].Messages());
      var _ := Execute(vtbl, kernel, envs[i]);
    }
    assert envs[..|envs|] == envs;
  }
}
