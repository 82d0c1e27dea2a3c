/** The application configuration of pkg/core/config/main.go: defaulting of
    unset fields, the ordered validation of the critical ones, and reading a
    secret from the environment. Reading the .env file and the environment
    through viper is not modelled; the environment is a map. */
module AppConfig {
  import opened Wrappers

  /** The process environment. */
  type Env = map<string, string>

  /** os.Getenv: an unset variable reads as the empty string. */
  function Getenv(env: Env, key: string): (v: string)
    ensures key in env ==> v == env[key]
    ensures key !in env ==> v == ""
  {
    if key in env then env[key] else ""
  }

  /** Config: one field per configuration key. */
  class Config {
    var BuildVersion: string
    var AppEnv: string
    var AppPort: int
    var Domain: string
    var DBType: string
    var DBHost: string
    var DBPort: int
    var DBName: string
    var DBUser: string
    var DBPassword: string
    var DBSSLMode: string
    var DBMaxIdleConns: int
    var DBMaxConnLifetime: int
    var MaxConns: int
    var MinConns: int
    var Migrate: bool
    var Seed: bool
    var RedisExp: int
    var RedisURI: string
    var RedisPassword: string
    var RedisDB: int
    var IsRedis: bool
    var RateLimitEnabled: bool
    var RateLimit: int
    var RateLimitDuration: string
    var JwtSecretKey: string
    var JwtExpiration: string
    var StorageDisk: string
    var StoragePath: string
    var AwsRegion: string
    var AwsAccessKey: string
    var AwsSecretKey: string
    var AwsBucket: string
    var AwsEndpoint: string

    /** The Go zero value of Config, which the configuration loader then fills in. */
    constructor ()
      ensures BuildVersion == "" && AppEnv == "" && AppPort == 0 && Domain == ""
      ensures DBType == "" && DBHost == "" && DBPort == 0 && DBName == "" && DBUser == ""
      ensures DBPassword == "" && DBSSLMode == "" && DBMaxIdleConns == 0 && DBMaxConnLifetime == 0
      ensures MaxConns == 0 && MinConns == 0 && !Migrate && !Seed
      ensures RedisExp == 0 && RedisURI == "" && RedisPassword == "" && RedisDB == 0 && !IsRedis
      ensures !RateLimitEnabled && RateLimit == 0 && RateLimitDuration == ""
      ensures JwtSecretKey == "" && JwtExpiration == "" && StorageDisk == "" && StoragePath == ""
      ensures AwsRegion == "" && AwsAccessKey == "" && AwsSecretKey == "" && AwsBucket == "" && AwsEndpoint == ""
    {
      BuildVersion, AppEnv, AppPort, Domain := "", "", 0, "";
      DBType, DBHost, DBPort, DBName, DBUser := "", "", 0, "", "";
      DBPassword, DBSSLMode, DBMaxIdleConns, DBMaxConnLifetime := "", "", 0, 0;
      MaxConns, MinConns, Migrate, Seed := 0, 0, false, false;
      RedisExp, RedisURI, RedisPassword, RedisDB, IsRedis := 0, "", "", 0, false;
      RateLimitEnabled, RateLimit, RateLimitDuration := false, 0, "";
      JwtSecretKey, JwtExpiration, StorageDisk, StoragePath := "", "", "", "";
      AwsRegion, AwsAccessKey, AwsSecretKey, AwsBucket, AwsEndpoint := "", "", "", "", "";
    }

    /** Every field that setDefaultValues fills in holds a non-zero value. */
    predicate Defaulted()
      reads this
    {
      AppPort != 0 && RateLimit != 0 && StorageDisk != "" && JwtExpiration != ""
    }

    /** setDefaultValues: each defaulted field gets its default only while it
        holds its zero value; no other field is written (see the frame). On a
        config that is already Defaulted() it changes nothing, so a second
        call is a no-op. */
    method SetDefaultValues()
      modifies this`AppPort, this`RedisDB, this`RateLimit, this`StorageDisk, this`JwtExpiration
      ensures AppPort == if old(AppPort) == 0 then 8080 else old(AppPort)
      ensures RedisDB == old(RedisDB)
      ensures RateLimit == if old(RateLimit) == 0 then 100 else old(RateLimit)
      ensures StorageDisk == if old(StorageDisk) == "" then "local" else old(StorageDisk)
      ensures JwtExpiration == if old(JwtExpiration) == "" then "1h" else old(JwtExpiration)
      ensures Defaulted()
      ensures old(Defaulted()) ==> unchanged(this)
      ensures old(StorageDisk) == "" ==> Validate() != Some(StorageDiskInvalid)
    {
      if AppPort == 0 {
        AppPort := 8080;
      }
      if RedisDB == 0 {
        RedisDB := 0;
      }
      if RateLimit == 0 {
        RateLimit := 100;
      }
      if StorageDisk == "" {
        StorageDisk := "local";
      }
      if JwtExpiration == "" {
        JwtExpiration := "1h";
      }
    }

    /** validateConfig: the first failing check, in the order DBHost, DBPort,
        StorageDisk, JwtSecretKey; None when all four pass. */
    function Validate(): (r: Option<ConfigError>)
      reads this
      ensures r == None <==>
        DBHost != "" && DBPort > 0 && (StorageDisk == "local" || StorageDisk == "s3") && JwtSecretKey != ""
      ensures r == Some(DBHostMissing) <==> DBHost == ""
      ensures r == Some(DBPortInvalid) <==> DBHost != "" && DBPort <= 0
      ensures r == Some(StorageDiskInvalid) <==>
        DBHost != "" && DBPort > 0 && StorageDisk != "local" && StorageDisk != "s3"
      ensures r == Some(JwtSecretKeyMissing) <==>
        DBHost != "" && DBPort > 0 && (StorageDisk == "local" || StorageDisk == "s3") && JwtSecretKey == ""
    {
      if DBHost == "" then Some(DBHostMissing)
      else if DBPort <= 0 then Some(DBPortInvalid)
      else if StorageDisk != "local" && StorageDisk != "s3" then Some(StorageDiskInvalid)
      else if JwtSecretKey == "" then Some(JwtSecretKeyMissing)
      else None
    }
  }

  datatype ConfigError = DBHostMissing | DBPortInvalid | StorageDiskInvalid | JwtSecretKeyMissing

  /** The text of each Validate error; every one is non-empty. */
  function ErrorMessage(e: ConfigError): (m: string)
    ensures |m| > 0
  {
    match e
    case DBHostMissing => "DBHost must be set"
    case DBPortInvalid => "DBPort must be a positive integer"
    case StorageDiskInvalid => "StorageDisk must be either 'local' or 's3'"
    case JwtSecretKeyMissing => "JWTSecretKey must be set"
  }

  /** Distinct errors have distinct messages, so the message identifies the check that failed. */
  lemma ErrorMessageInjective(a: ConfigError, b: ConfigError)
    ensures ErrorMessage(a) == ErrorMessage(b) ==> a == b
  {
  }

  /** LoadSecretFromEnv: the variable's value, or an error when it is unset or empty. */
  function LoadSecretFromEnv(env: Env, key: string): (r: Result<string, string>)
    ensures r.Failure? <==> key !in env || env[key] == ""
    ensures r.Success? ==> r.value == env[key] && r.value != ""
    ensures r.Failure? ==> r.error == "environment variable " + key + " not set"
  {
    var value := Getenv(env, key);
    if value == "" then Failure("environment variable " + key + " not set") else Success(value)
  }
}
