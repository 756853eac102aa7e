/**
 * Choice of the pre-built zsign executable for the host, as `getZSignPath`
 * makes it from `os.platform()` and `os.arch()`. Only the file name is
 * modelled; the directory it is joined onto is not.
 */
module ZSignBinary {
  import opened Results

  const Linux := "linux"
  const Darwin := "darwin"
  const Windows := "win32"
  const AppleSilicon := "arm64"

  /** The platforms for which a binary ships. */
  const SupportedPlatforms: set<string> := {Linux, Darwin, Windows}

  /** The names of the shipped binaries. */
  const LinuxBinary := "zsign_linux"
  const MacBinary := "zsign_macos"
  const AppleSiliconBinary := "zsign_macos_apple_silicon"
  const WindowsBinary := "zsign_windows.exe"

  function UnsupportedPlatform(platform: string, arch: string): string
  {
    "Unsupported platform: " + platform + " " + arch
  }

  /**
   * The binary for a platform and architecture. A supported platform always
   * gets a binary built for it; any other platform is refused with a message
   * naming both the platform and the architecture.
   */
  function BinaryName(platform: string, arch: string): (r: Result<string>)
    ensures r.Ok? <==> platform in SupportedPlatforms
    ensures r.Err? ==> r.message == UnsupportedPlatform(platform, arch)
    ensures r.Ok? ==> PlatformOf(r.value) == Some(platform)
    ensures r.Ok? ==> (r.value == AppleSiliconBinary <==> platform == Darwin && arch == AppleSilicon)
  {
    if platform == Linux then Ok(LinuxBinary)
    else if platform == Darwin then
      Ok(if arch == AppleSilicon then AppleSiliconBinary else MacBinary)
    else if platform == Windows then Ok(WindowsBinary)
    else Err(UnsupportedPlatform(platform, arch))
  }

  /** The platform a shipped binary was built for; None for any other name. */
  function PlatformOf(binary: string): Option<string>
  {
    if binary == LinuxBinary then Some(Linux)
    else if binary == MacBinary || binary == AppleSiliconBinary then Some(Darwin)
    else if binary == WindowsBinary then Some(Windows)
    else None
  }

  /** Every shipped binary is chosen for some host. */
  lemma EveryBinaryIsReachable(binary: string)
    requires PlatformOf(binary).Some?
    ensures exists arch :: BinaryName(PlatformOf(binary).value, arch) == Ok(binary)
  {
    var arch := if binary == AppleSiliconBinary then AppleSilicon else "x64";
    assert BinaryName(PlatformOf(binary).value, arch) == Ok(binary);
  }

  /** Off macOS the architecture does not influence the choice. */
  lemma ArchOnlyMattersOnDarwin(platform: string, arch1: string, arch2: string)
    requires platform in SupportedPlatforms && platform != Darwin
    ensures BinaryName(platform, arch1) == BinaryName(platform, arch2)
  {
  }
}
