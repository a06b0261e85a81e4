/** Where the client keeps its files: a directory `.netconf_client` under the user's home
    directory, holding the command history and the configuration document.  The home
    directory itself comes from the environment and is a parameter here. */
module ConfigPaths {

  const ClientDir := ".netconf_client"

  /** `asprintf("%s/%s", home, NCC_DIR)` */
  function NetconfDir(home: string): string {
    home + "/" + ClientDir
  }

  /** `asprintf("%s/history", netconf_dir)` */
  function HistoryFile(dir: string): string {
    dir + "/history"
  }

  /** `asprintf("%s/config.xml", netconf_dir)` */
  function ConfigFile(dir: string): string {
    dir + "/config.xml"
  }

  lemma SuffixCancels(a: string, b: string, t: string)
    requires a + t == b + t
    ensures a == b
  {
    assert a == (a + t)[..|a|];
    assert b == (b + t)[..|b|];
  }

  /** Both files are entries of the client directory, and they are never the same file,
      whatever the two directories are. */
  lemma FilesInDirectory(dir: string, dir': string)
    ensures HistoryFile(dir)[..|dir| + 1] == dir + "/"
    ensures ConfigFile(dir)[..|dir| + 1] == dir + "/"
    ensures HistoryFile(dir) != ConfigFile(dir')
  {
    var h, c := HistoryFile(dir), ConfigFile(dir');
    assert h[|h| - 1] == 'y';
    assert c[|c| - 1] == 'l';
  }

  /** Distinct home directories give distinct client directories, history files and
      configuration files: each path determines the home directory it was built from. */
  lemma PathsDetermineHome(home: string, home': string)
    ensures NetconfDir(home) == NetconfDir(home') <==> home == home'
    ensures HistoryFile(NetconfDir(home)) == HistoryFile(NetconfDir(home')) <==> home == home'
    ensures ConfigFile(NetconfDir(home)) == ConfigFile(NetconfDir(home')) <==> home == home'
  {
    if HistoryFile(NetconfDir(home)) == HistoryFile(NetconfDir(home')) {
      SuffixCancels(NetconfDir(home), NetconfDir(home'), "/history");
    }
    if ConfigFile(NetconfDir(home)) == ConfigFile(NetconfDir(home')) {
      SuffixCancels(NetconfDir(home), NetconfDir(home'), "/config.xml");
    }
    if NetconfDir(home) == NetconfDir(home') {
      assert home + ("/" + ClientDir) == NetconfDir(home);
      assert home' + ("/" + ClientDir) == NetconfDir(home');
      SuffixCancels(home, home', "/" + ClientDir);
    }
  }
}
