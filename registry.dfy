/** `MultiRecorder`: the recorders by handle, in the order the dictionary keeps them, sharing
    one configuration and one output directory. */
module Registry {
  import opened Optional
  import opened Text
  import opened Durations
  import opened Filenames
  import opened Finalizer
  import opened Recording

  /** `Recorder(self.config)` followed by its `start`: a fresh recorder on the shared
    configuration and directory, and whether it started. */
  method Spawn(config: Config, disk: Disk, username: string, streamUrl: string, title: string, liveUrl: string,
               now: DateTime, epoch: real, ffmpegFound: bool, ffmpegLaunch: Launch, ytdlpLaunch: Launch)
    returns (rec: Recorder, ok: bool)
    ensures fresh(rec) && rec.config == config && rec.disk == disk
    ensures ok == rec.CheckStatus()
    ensures ok <==> (streamUrl != "" && ffmpegFound && ffmpegLaunch.Alive?) || ytdlpLaunch.Alive?
    ensures rec.State()
            == AfterStart(Idle, username, streamUrl, title, liveUrl, epoch,
                          ProbePath(config.outputDir, Stem(config.filenamePattern, username, title, now),
                                    disk.files.Keys, Trunc(epoch * 1000.0)),
                          ffmpegFound, ffmpegLaunch, ytdlpLaunch)
  {
    rec := new Recorder(config, disk);
    ok := rec.Start(username, streamUrl, title, liveUrl, now, epoch, ffmpegFound, ffmpegLaunch, ytdlpLaunch);
  }

  /** The keys are listed once each in `order`, each handle has its own recorder, and all
    recorders share one configuration and one directory. */
  predicate Registered(recorders: map<string, Recorder>, order: seq<string>, config: Config, disk: Disk) {
    && Distinct(order)
    && (forall k :: k in recorders ==> k in order) && (forall k :: k in order ==> k in recorders)
    && (forall k :: k in recorders ==> recorders[k].config == config && recorders[k].disk == disk)
    && (forall a, b :: a in recorders && b in recorders && a != b ==> recorders[a] != recorders[b])
  }

  /** Putting a recorder no handle holds yet under a handle keeps the registry well formed;
    a new handle goes to the end of the order. */
  lemma Register(recorders: map<string, Recorder>, order: seq<string>, config: Config, disk: Disk,
                 k: string, rec: Recorder)
    requires Registered(recorders, order, config, disk)
    requires rec !in recorders.Values && rec.config == config && rec.disk == disk
    ensures Registered(recorders[k := rec], if k in recorders then order else order + [k], config, disk)
  {
    var r := recorders[k := rec];
    forall a, b | a in r && b in r && a != b ensures r[a] != r[b] {
      if a != k && b != k {
        assert r[a] == recorders[a] && r[b] == recorders[b];
      } else if a == k {
        assert recorders[b] in recorders.Values;
      } else {
        assert recorders[a] in recorders.Values;
      }
    }
  }

  /** One recorder's `stop`, seen from the registry: afterwards it is no longer active. */
  method StopRecorder(rec: Recorder, ffmpegFound: bool, ffmpeg: Ffmpeg, listdir: string -> Option<seq<string>>, now: real)
    returns (e: Option<Completion>)
    modifies rec, rec.disk, rec.config
    ensures !rec.CheckStatus()
  {
    e := rec.Stop(ffmpegFound, ffmpeg, listdir, now);
  }

  class MultiRecorder {
    const config: Config
    const disk: Disk
    var recorders: map<string, Recorder>
    var order: seq<string>

    /** The keys are listed once each in `order`, each handle has its own recorder, and all
      recorders share the registry's configuration and directory. */
    ghost predicate Valid()
      reads this
    {
      Registered(recorders, order, config, disk)
    }

    constructor(config: Config, disk: Disk)
      ensures Valid() && this.config == config && this.disk == disk
      ensures recorders == map[] && order == []
    {
      this.config := config;
      this.disk := disk;
      recorders := map[];
      order := [];
    }

    /** `start`: refused while the handle's recorder is recording. Otherwise a new recorder is
      started; only when it starts does it take the handle's place (a new handle goes to the
      end of the order, a known one keeps its place). */
    method Start(username: string, streamUrl: string, title: string, liveUrl: string,
                 now: DateTime, epoch: real, ffmpegFound: bool, ffmpegLaunch: Launch, ytdlpLaunch: Launch)
      returns (ok: bool)
      requires Valid()
      modifies this`recorders, this`order
      ensures Valid()
      ensures !ok ==> recorders == old(recorders) && order == old(order)
      ensures ok <==> !(username in old(recorders) && old(recorders[username].isRecording))
                      && ((streamUrl != "" && ffmpegFound && ffmpegLaunch.Alive?) || ytdlpLaunch.Alive?)
      ensures ok ==> username in recorders && fresh(recorders[username])
                     && recorders == old(recorders)[username := recorders[username]]
                     && order == (if username in old(recorders) then old(order) else old(order) + [username])
                     && recorders[username].CheckStatus()
    {
      if username in recorders && recorders[username].isRecording {
        return false;
      }
      ok := Admit(username, streamUrl, title, liveUrl, now, epoch, ffmpegFound, ffmpegLaunch, ytdlpLaunch);
    }

    /** The part of `start` past the refusal: a new recorder is started and takes the handle's
      place only when it starts. */
    method Admit(username: string, streamUrl: string, title: string, liveUrl: string,
                 now: DateTime, epoch: real, ffmpegFound: bool, ffmpegLaunch: Launch, ytdlpLaunch: Launch)
      returns (ok: bool)
      requires Valid()
      modifies this`recorders, this`order
      ensures Valid()
      ensures ok <==> (streamUrl != "" && ffmpegFound && ffmpegLaunch.Alive?) || ytdlpLaunch.Alive?
      ensures !ok ==> recorders == old(recorders) && order == old(order)
      ensures ok ==> username in recorders && fresh(recorders[username])
                     && recorders == old(recorders)[username := recorders[username]]
                     && order == (if username in old(recorders) then old(order) else old(order) + [username])
                     && recorders[username].CheckStatus()
    {
      var rec;
      rec, ok := Spawn(config, disk, username, streamUrl, title, liveUrl, now, epoch, ffmpegFound, ffmpegLaunch, ytdlpLaunch);
      if ok {
        Install(username, rec);
      }
    }

    /** `self.recorders[username] = rec` for a recorder no handle holds yet. */
    method Install(username: string, rec: Recorder)
      requires Valid() && rec !in recorders.Values && rec.config == config && rec.disk == disk
      modifies this`recorders, this`order
      ensures Valid()
      ensures recorders == old(recorders)[username := rec]
      ensures order == if username in old(recorders) then old(order) else old(order) + [username]
    {
      Register(recorders, order, config, disk, username, rec);
      if username !in recorders {
        order := order + [username];
      }
      recorders := recorders[username := rec];
    }

    /** `is_recording`: the handle has a recorder and it is recording and not stopping. */
    function IsRecording(username: string): (r: bool)
      reads this, recorders.Values
      ensures r <==> Get(username).Some? && Get(username).value.CheckStatus()
    {
      username in recorders && recorders[username].CheckStatus()
    }

    /** `get`. */
    function Get(username: string): (r: Option<Recorder>)
      reads this
      ensures r.Some? <==> username in recorders
      ensures r.Some? ==> r.value == recorders[username]
    {
      if username in recorders then Some(recorders[username]) else None
    }

    /** The handles among `keys` whose recorders report an active recording, in order. */
    function ActiveAmong(keys: seq<string>): (r: seq<string>)
      requires forall k :: k in keys ==> k in recorders
      reads this, recorders.Values
      ensures forall u :: u in r <==> u in keys && recorders[u].CheckStatus()
      ensures |r| <= |keys|
    {
      if keys == [] then []
      else
        var rest := ActiveAmong(keys[1..]);
        if recorders[keys[0]].CheckStatus() then [keys[0]] + rest else rest
    }

    /** `get_all`: the handles whose recorders report an active recording. */
    function GetAll(): (r: seq<string>)
      requires Valid()
      reads this, recorders.Values
      ensures forall u :: u in r <==> IsRecording(u)
      ensures Distinct(r)
      ensures r == ActiveAmong(order)
    {
      ActiveSubsequence(order);
      ActiveAmong(order)
    }

    /** The filter keeps the order of the keys: filtering a concatenation concatenates the
      filtered parts. */
    lemma {:induction false} ActiveAmongConcat(a: seq<string>, b: seq<string>)
      requires forall k :: k in a + b ==> k in recorders
      ensures ActiveAmong(a + b) == ActiveAmong(a) + ActiveAmong(b)
      decreases |a|
    {
      if a == [] {
        assert a + b == b;
      } else {
        assert (a + b)[0] == a[0];
        assert (a + b)[1..] == a[1..] + b;
        ActiveAmongConcat(a[1..], b);
      }
    }

    lemma {:induction false} ActiveSubsequence(keys: seq<string>)
      requires forall k :: k in keys ==> k in recorders
      requires Distinct(keys)
      ensures Distinct(ActiveAmong(keys))
    {
      if keys != [] {
        assert Distinct(keys[1..]) by {
          forall i, j | 0 <= i < j < |keys[1..]| ensures keys[1..][i] != keys[1..][j] {
            assert keys[1..][i] == keys[i + 1] && keys[1..][j] == keys[j + 1];
          }
        }
        ActiveSubsequence(keys[1..]);
        var rest := ActiveAmong(keys[1..]);
        if recorders[keys[0]].CheckStatus() {
          assert keys[0] !in keys[1..] by {
            forall i | 0 <= i < |keys[1..]| ensures keys[1..][i] != keys[0] {
              assert keys[1..][i] == keys[i + 1];
            }
          }
          assert keys[0] !in rest;
          var r := [keys[0]] + rest;
          forall i, j | 0 <= i < j < |r| ensures r[i] != r[j] {
            if i == 0 { assert r[j] == rest[j - 1]; assert r[j] in rest; } else { assert r[i] == rest[i - 1] && r[j] == rest[j - 1]; }
          }
        }
      }
    }

    /** `stop_all`: every recorder is stopped and ends inactive, then the registry is emptied.
      The completions are collected in `events`; what each one holds is `Recorder.Stop`'s
      contract and is not restated here. */
    method StopAll(ffmpegFound: bool, ffmpeg: Ffmpeg, listdir: string -> Option<seq<string>>, now: real)
      returns (events: seq<Completion>)
      requires Valid()
      modifies this, recorders.Values, disk, config
      ensures Valid()
      ensures recorders == map[] && order == []
      ensures forall k :: k in old(recorders) ==> !old(recorders)[k].CheckStatus()
    {
      events := [];
      var i := 0;
      while i < |order|
        invariant 0 <= i <= |order|
        invariant recorders == old(recorders) && order == old(order)
        invariant forall j :: 0 <= j < i ==> !recorders[order[j]].CheckStatus()
      {
        var rec := recorders[order[i]];
        var e := StopRecorder(rec, ffmpegFound, ffmpeg, listdir, now);
        if e.Some? {
          events := events + [e.value];
        }
        i := i + 1;
      }
      recorders := map[];
      order := [];
    }
  }
}
